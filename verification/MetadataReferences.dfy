/** How nodes and parameters refer to nodes: table refinement, target checks, parameters and roots. */
module MetadataReferences {
  import opened MetadataNodes

  datatype ParameterClass = Import | Export | Changing | Tables | Exception

  datatype ParameterRow = ParameterRow(
    functionName: string, parameterClass: ParameterClass, name: string,
    tableName: string, fieldPath: string, internalType: string, position: nat, internalLength: nat)

  datatype IndirectRow = IndirectRow(tableName: string, fieldPath: string, targetType: string)

  datatype ParameterReference =
    | ExceptionParameter
    | ScalarParameter(internalType: string)
    | ScalarTableParameter(internalType: string)
    | NodeParameter(kind: Kind, internalType: string, target: string)

  datatype Parameter = Parameter(row: ParameterRow, reference: ParameterReference)

  type Key = (string, string)

  /** The position of the node with a given name; for a repeated name the last one counts. */
  function IndexByName(nodes: seq<Node>): (m: map<string, nat>)
    ensures forall name :: name in m ==> m[name] < |nodes| && nodes[m[name]].name == name
    ensures forall i :: 0 <= i < |nodes| ==> nodes[i].name in m
  {
    if nodes == [] then map[]
    else IndexByName(nodes[..|nodes| - 1])[nodes[|nodes| - 1].name := |nodes| - 1]
  }

  /** Every reference of a field names an existing node of the referenced kind. */
  ghost predicate TargetsClosed(nodes: seq<Node>) {
    forall i, k {:trigger TargetOk(nodes, nodes[i].fields[k].reference)} ::
      0 <= i < |nodes| && 0 <= k < |nodes[i].fields| ==> TargetOk(nodes, nodes[i].fields[k].reference)
  }

  predicate TargetOk(nodes: seq<Node>, reference: Reference) {
    reference.NodeReference? ==>
      && reference.target in IndexByName(nodes)
      && nodes[IndexByName(nodes)[reference.target]].kind == reference.kind
  }

  /** Accepts exactly the node lists whose field references are all met. */
  method ValidateNodeTargets(nodes: seq<Node>) returns (error: Result<()>)
    ensures error.Ok? <==> TargetsClosed(nodes)
    ensures error.Err? ==> error.code in {ForeignTypeReference, ReferenceKindMismatch}
  {
    var byName := IndexByName(nodes);
    for i := 0 to |nodes|
      invariant forall j, k :: 0 <= j < i && 0 <= k < |nodes[j].fields| ==> TargetOk(nodes, nodes[j].fields[k].reference)
    {
      for k := 0 to |nodes[i].fields|
        invariant forall m :: 0 <= m < k ==> TargetOk(nodes, nodes[i].fields[m].reference)
      {
        var reference := nodes[i].fields[k].reference;
        if reference.NodeReference? {
          if reference.target !in byName {
            assert !TargetOk(nodes, nodes[i].fields[k].reference);
            return Err(ForeignTypeReference);
          }
          if nodes[byName[reference.target]].kind != reference.kind {
            assert !TargetOk(nodes, nodes[i].fields[k].reference);
            return Err(ReferenceKindMismatch);
          }
        }
      }
    }
    return Ok(());
  }

  /** An indirect key is ambiguous when two rows declare it; otherwise its row gives the target. */
  ghost predicate UniqueTarget(indirect: seq<IndirectRow>, key: Key, target: string) {
    exists i :: 0 <= i < |indirect| && KeyOf(indirect[i]) == key && indirect[i].targetType == target &&
                forall j :: 0 <= j < |indirect| && j != i ==> KeyOf(indirect[j]) != key
  }

  function KeyOf(row: IndirectRow): Key {
    (row.tableName, row.fieldPath)
  }

  predicate Dashed(path: string) {
    '-' in path
  }

  /** A table type parameter or a table field that makes a type name stand for a table. */
  ghost predicate RequiredTable(nodes: seq<Node>, parameters: seq<ParameterRow>, indirect: seq<IndirectRow>, name: string) {
    || (exists i, k :: 0 <= i < |nodes| && 0 <= k < |nodes[i].fields| && TableField(nodes[i].fields[k], name))
    || (exists p :: 0 <= p < |parameters| && TableParameter(parameters[p], indirect, name))
  }

  predicate TableField(f: Field, name: string) {
    f.reference.NodeReference? && f.reference.kind == Table && f.reference.target == name
  }

  ghost predicate TableParameter(p: ParameterRow, indirect: seq<IndirectRow>, name: string) {
    p.internalType == "h" &&
    if Dashed(p.fieldPath) then UniqueTarget(indirect, (p.tableName, p.fieldPath), name)
    else p.fieldPath == "" && p.tableName == name != ""
  }

  ghost function RefinedNode(nodes: seq<Node>, parameters: seq<ParameterRow>, indirect: seq<IndirectRow>, node: Node): Node {
    if node.kind == Scalar && RequiredTable(nodes, parameters, indirect, node.name) then node.(kind := Table) else node
  }

  /** The nodes with those elementary ones promoted to tables that something refers to as a table. */
  ghost function RefinedNodes(nodes: seq<Node>, parameters: seq<ParameterRow>, indirect: seq<IndirectRow>): (r: seq<Node>)
    ensures |r| == |nodes| && forall i :: 0 <= i < |nodes| ==> r[i] == RefinedNode(nodes, parameters, indirect, nodes[i])
  {
    seq(|nodes|, i requires 0 <= i < |nodes| => RefinedNode(nodes, parameters, indirect, nodes[i]))
  }

  /** Targets by key, and the keys declared more than once. */
  method IndirectTargets(indirect: seq<IndirectRow>) returns (targets: map<Key, string>, ambiguous: set<Key>)
    ensures forall key, target :: UniqueTarget(indirect, key, target) <==> key in targets && key !in ambiguous && targets[key] == target
  {
    targets, ambiguous := map[], {};
    for i := 0 to |indirect|
      invariant forall key :: key in targets <==> exists j :: 0 <= j < i && KeyOf(indirect[j]) == key
      invariant forall key :: key in ambiguous <==>
                  exists j, k :: 0 <= j < k < i && KeyOf(indirect[j]) == key && KeyOf(indirect[k]) == key
      invariant forall key :: key in targets ==>
                  exists j :: 0 <= j < i && KeyOf(indirect[j]) == key && indirect[j].targetType == targets[key]
    {
      var key := KeyOf(indirect[i]);
      if key in targets {
        ambiguous := ambiguous + {key};
      } else {
        targets := targets[key := indirect[i].targetType];
      }
    }
    forall key, target ensures UniqueTarget(indirect, key, target) <==> key in targets && key !in ambiguous && targets[key] == target {
      if key in targets && key !in ambiguous {
        var j :| 0 <= j < |indirect| && KeyOf(indirect[j]) == key && indirect[j].targetType == targets[key];
        assert forall k :: 0 <= k < |indirect| && k != j ==> KeyOf(indirect[k]) != key;
      }
    }
  }

  /** Promote to tables exactly those elementary nodes that something refers to as a table. */
  method RefineTableNodeKinds(nodes: seq<Node>, parameters: seq<ParameterRow>, indirect: seq<IndirectRow>)
    returns (refined: seq<Node>)
    ensures refined == RefinedNodes(nodes, parameters, indirect)
  {
    var targets, ambiguous := IndirectTargets(indirect);
    var requiredTables: set<string> := {};
    for i := 0 to |nodes|
      invariant forall name :: name in requiredTables <==>
                  exists j, k :: 0 <= j < i && 0 <= k < |nodes[j].fields| && TableField(nodes[j].fields[k], name)
    {
      for k := 0 to |nodes[i].fields|
        invariant forall name :: name in requiredTables <==>
                    (exists j, m :: 0 <= j < i && 0 <= m < |nodes[j].fields| && TableField(nodes[j].fields[m], name)) ||
                    (exists m :: 0 <= m < k && TableField(nodes[i].fields[m], name))
      {
        var reference := nodes[i].fields[k].reference;
        if reference.NodeReference? && reference.kind == Table {
          assert TableField(nodes[i].fields[k], reference.target);
          requiredTables := requiredTables + {reference.target};
        }
      }
    }
    ghost var fromFields := requiredTables;
    for p := 0 to |parameters|
      invariant forall name :: name in requiredTables <==>
                  name in fromFields || exists q :: 0 <= q < p && TableParameter(parameters[q], indirect, name)
    {
      var parameter := parameters[p];
      if parameter.internalType == "h" {
        if Dashed(parameter.fieldPath) {
          var key := (parameter.tableName, parameter.fieldPath);
          if key in targets && key !in ambiguous {
            assert UniqueTarget(indirect, key, targets[key]);
            requiredTables := requiredTables + {targets[key]};
          }
        } else if parameter.fieldPath == "" && parameter.tableName != "" {
          requiredTables := requiredTables + {parameter.tableName};
        }
      }
    }
    refined := [];
    for i := 0 to |nodes|
      invariant |refined| == i
      invariant forall j :: 0 <= j < i ==>
                  refined[j] == nodes[j].(kind := if nodes[j].kind == Scalar && nodes[j].name in requiredTables then Table else nodes[j].kind)
    {
      var node := nodes[i];
      refined := refined + [if node.kind == Scalar && node.name in requiredTables then node.(kind := Table) else node];
    }
    forall i | 0 <= i < |nodes| ensures refined[i] == RefinedNode(nodes, parameters, indirect, nodes[i]) {
      assert nodes[i].name in requiredTables <==> RequiredTable(nodes, parameters, indirect, nodes[i].name);
    }
  }

  /** Every indirect row has a dashed path and a key of its own. */
  ghost predicate IndirectAcceptable(indirect: seq<IndirectRow>) {
    && (forall i :: 0 <= i < |indirect| ==> Dashed(indirect[i].fieldPath))
    && (forall i, j :: 0 <= i < j < |indirect| ==> KeyOf(indirect[i]) != KeyOf(indirect[j]))
  }

  /** The indirect rows by key. */
  function EntriesOf(indirect: seq<IndirectRow>): (m: map<Key, IndirectRow>)
    ensures forall key :: key in m ==> KeyOf(m[key]) == key
  {
    if indirect == [] then map[]
    else
      var last := indirect[|indirect| - 1];
      EntriesOf(indirect[..|indirect| - 1])[KeyOf(last) := last]
  }

  lemma {:induction false} EntryKeys(indirect: seq<IndirectRow>, key: Key)
    ensures key in EntriesOf(indirect) <==> exists i :: 0 <= i < |indirect| && KeyOf(indirect[i]) == key
  {
    if indirect != [] {
      var n := |indirect| - 1;
      EntryKeys(indirect[..n], key);
      if i :| 0 <= i < |indirect| && KeyOf(indirect[i]) == key && i < n {
        assert indirect[..n][i] == indirect[i];
      }
    }
  }

  method IndirectMap(indirect: seq<IndirectRow>) returns (r: Result<map<Key, IndirectRow>>)
    ensures r.Ok? <==> IndirectAcceptable(indirect)
    ensures r.Ok? ==> r.value == EntriesOf(indirect)
    ensures r.Err? ==> (r.code == InvalidIndirectPath && exists i :: 0 <= i < |indirect| && !Dashed(indirect[i].fieldPath)) ||
                       (r.code == DuplicateIndirectType && exists i, j :: 0 <= i < j < |indirect| && KeyOf(indirect[i]) == KeyOf(indirect[j]))
  {
    var entries: map<Key, IndirectRow> := map[];
    for i := 0 to |indirect|
      invariant entries == EntriesOf(indirect[..i])
      invariant forall j :: 0 <= j < i ==> Dashed(indirect[j].fieldPath)
      invariant forall j, k :: 0 <= j < k < i ==> KeyOf(indirect[j]) != KeyOf(indirect[k])
    {
      var row := indirect[i];
      EntryKeys(indirect[..i], KeyOf(row));
      if !Dashed(row.fieldPath) {
        return Err(InvalidIndirectPath);
      }
      if KeyOf(row) in entries {
        return Err(DuplicateIndirectType);
      }
      assert indirect[..i + 1][..i] == indirect[..i];
      entries := entries[KeyOf(row) := row];
    }
    assert indirect[..|indirect|] == indirect;
    return Ok(entries);
  }

  function FieldsByName(fields: seq<Field>): (m: map<string, Field>)
    ensures forall name :: name in m ==> m[name] in fields
  {
    if fields == [] then map[]
    else FieldsByName(fields[..|fields| - 1])[fields[|fields| - 1].name := fields[|fields| - 1]]
  }

  function SplitDash(s: string): (r: seq<string>)
    ensures r != []
  {
    if s == "" then [""]
    else
      var rest := SplitDash(s[1..]);
      if s[0] == '-' then [""] + rest else [[s[0]] + rest[0]] + rest[1..]
  }

  /** The reference that a field path leads to, one segment after another. */
  function ResolveFrom(nodes: seq<Node>, at: nat, segments: seq<string>): Result<Reference>
    requires at < |nodes| && segments != []
    decreases |segments|
  {
    var fields := FieldsByName(nodes[at].fields);
    if segments[0] == "" then Err(InvalidFieldPath)
    else if segments[0] !in fields then Err(ForeignFieldReference)
    else
      var reference := fields[segments[0]].reference;
      if |segments| == 1 then Ok(reference)
      else if !(reference.NodeReference? && reference.kind == Structure) then Err(InvalidFieldPath)
      else if !(reference.target in IndexByName(nodes) && nodes[IndexByName(nodes)[reference.target]].kind == Structure) then
        Err(ForeignTypeReference)
      else ResolveFrom(nodes, IndexByName(nodes)[reference.target], segments[1..])
  }

  method ResolveFieldPath(nodes: seq<Node>, byName: map<string, nat>, owner: nat,
      fieldPath: string) returns (r: Result<Reference>)
    requires owner < |nodes| && byName == IndexByName(nodes)
    ensures r == ResolveFrom(nodes, owner, SplitDash(fieldPath))
  {
    var segments := SplitDash(fieldPath);
    var current: nat := owner;
    var index := 0;
    while true
      invariant 0 <= index < |segments| && current < |nodes|
      invariant ResolveFrom(nodes, current, segments[index..]) == ResolveFrom(nodes, owner, segments)
      decreases |segments| - index
    {
      var segment := segments[index];
      assert segments[index..][1..] == segments[index + 1..];
      if segment == "" {
        return Err(InvalidFieldPath);
      }
      var fields := FieldsByName(nodes[current].fields);
      if segment !in fields {
        return Err(ForeignFieldReference);
      }
      var reference := fields[segment].reference;
      if index == |segments| - 1 {
        return Ok(reference);
      }
      if !(reference.NodeReference? && reference.kind == Structure) {
        return Err(InvalidFieldPath);
      }
      if reference.target !in byName || nodes[byName[reference.target]].kind != Structure {
        return Err(ForeignTypeReference);
      }
      current, index := byName[reference.target], index + 1;
    }
  }

  /** What one parameter contributes: its reference, the types it roots, the indirect row it uses, its edges. */
  datatype Resolution = Resolution(reference: ParameterReference, roots: seq<string>, consumed: set<Key>, edges: nat)

  predicate ScalarTableRow(row: ParameterRow) {
    row.parameterClass == Tables && row.internalType !in ["u", "v", "h"]
  }

  predicate TableRow(row: ParameterRow) {
    !ScalarTableRow(row) && (row.parameterClass == Tables || row.internalType == "h")
  }

  predicate StructureRow(row: ParameterRow) {
    !TableRow(row) && !ScalarTableRow(row) && row.internalType in ["u", "v"]
  }

  /** A type that stands for a single elementary value. */
  predicate Elementary(node: Node) {
    |node.fields| == 1 && node.fields[0].name == "" && node.fields[0].reference.ScalarReference?
  }

  ghost predicate DistinctRoots(roots: seq<string>) {
    forall i, j :: 0 <= i < j < |roots| ==> roots[i] != roots[j]
  }

  ghost predicate RootsExist(nodes: seq<Node>, roots: seq<string>) {
    forall k :: 0 <= k < |roots| ==> roots[k] in IndexByName(nodes)
  }

  /** What an accepted parameter reference guarantees. */
  ghost predicate ParameterOk(nodes: seq<Node>, row: ParameterRow, reference: ParameterReference, roots: seq<string>) {
    && (reference.ExceptionParameter? <==> row.parameterClass == Exception)
    && (row.parameterClass != Exception ==>
          && (reference.ScalarTableParameter? <==> ScalarTableRow(row))
          && (reference.NodeParameter? <==> TableRow(row) || StructureRow(row)))
    && (reference.NodeParameter? ==>
          && reference.target in roots && reference.target in IndexByName(nodes)
          && reference.kind == (if TableRow(row) then Table else Structure)
          && (StructureRow(row) ==> nodes[IndexByName(nodes)[reference.target]].kind == Structure)
          && (row.internalType == "h" ==> nodes[IndexByName(nodes)[reference.target]].kind == Table))
  }

  ghost predicate ResolutionOk(nodes: seq<Node>, indirect: map<Key, IndirectRow>, row: ParameterRow, r: Resolution) {
    && ParameterOk(nodes, row, r.reference, r.roots)
    && RootsExist(nodes, r.roots)
    && (forall key :: key in r.consumed ==> row.parameterClass != Exception && key == (row.tableName, row.fieldPath) && key in indirect)
  }

  /** The type named by a dashed path's indirect row, if the path is dashed. */
  function MappedTarget(row: ParameterRow, nodes: seq<Node>, indirect: map<Key, IndirectRow>): Result<string> {
    var key := (row.tableName, row.fieldPath);
    if row.tableName == "" then Err(MissingAssociatedType)
    else if key !in indirect then Err(MissingIndirectType)
    else if indirect[key].targetType !in IndexByName(nodes) then Err(ForeignTypeReference)
    else Ok(indirect[key].targetType)
  }

  /** A parameter named by a single field of a type. */
  predicate NamesField(row: ParameterRow) {
    row.fieldPath != "" && !Dashed(row.fieldPath)
  }

  /** What the named field of the named type refers to. */
  function FieldReference(row: ParameterRow, nodes: seq<Node>): Result<Reference> {
    if row.tableName == "" then Err(MissingAssociatedType)
    else if row.tableName !in IndexByName(nodes) then Err(ForeignTypeReference)
    else ResolveFrom(nodes, IndexByName(nodes)[row.tableName], SplitDash(row.fieldPath))
  }

  /**
   * An elementary parameter, or an elementary line of a table: the type it is declared
   * with must stand for a single value, whichever way it is named.
   */
  function Elementwise(row: ParameterRow, nodes: seq<Node>, indirect: map<Key, IndirectRow>): Result<Resolution> {
    var reference := if ScalarTableRow(row) then ScalarTableParameter(row.internalType) else ScalarParameter(row.internalType);
    if Dashed(row.fieldPath) then
      match MappedTarget(row, nodes, indirect)
      case Err(code) => Err(code)
      case Ok(target) =>
        if !Elementary(nodes[IndexByName(nodes)[target]]) then Err(ReferenceKindMismatch)
        else Ok(Resolution(reference, [target], {(row.tableName, row.fieldPath)}, 1))
    else if NamesField(row) then
      match FieldReference(row, nodes)
      case Err(code) => Err(code)
      case Ok(direct) =>
        if !direct.ScalarReference? then Err(ReferenceKindMismatch) else Ok(Resolution(reference, [row.tableName], {}, 1))
    else if row.tableName != "" && row.tableName in IndexByName(nodes) then
      if !Elementary(nodes[IndexByName(nodes)[row.tableName]]) then Err(ReferenceKindMismatch)
      else Ok(Resolution(reference, [row.tableName], {}, 1))
    else Ok(Resolution(reference, [], {}, if ScalarTableRow(row) then 1 else 0))
  }

  /** The type a structure or table parameter is declared with. */
  function ContainerTarget(row: ParameterRow, nodes: seq<Node>, indirect: map<Key, IndirectRow>): Result<string> {
    var key := (row.tableName, row.fieldPath);
    if row.tableName == "" then Err(MissingAssociatedType)
    else if Dashed(row.fieldPath) then
      if key !in indirect then Err(MissingIndirectType) else Ok(indirect[key].targetType)
    else if NamesField(row) then
      match FieldReference(row, nodes)
      case Err(code) => Err(code)
      case Ok(direct) => if direct.ScalarReference? then Err(ReferenceKindMismatch) else Ok(direct.target)
    else Ok(row.tableName)
  }

  /** A structure or table parameter: its line or structure type becomes a root. */
  function Containing(row: ParameterRow, nodes: seq<Node>, indirect: map<Key, IndirectRow>): Result<Resolution> {
    match ContainerTarget(row, nodes, indirect)
    case Err(code) => Err(code)
    case Ok(target) =>
      if target !in IndexByName(nodes) then Err(ForeignTypeReference)
      else
        var kind := nodes[IndexByName(nodes)[target]].kind;
        if (StructureRow(row) && kind != Structure) || (row.internalType == "h" && kind != Table) then Err(ReferenceKindMismatch)
        else Ok(Resolution(NodeParameter(if TableRow(row) then Table else Structure, row.internalType, target), [target],
                           if Dashed(row.fieldPath) then {(row.tableName, row.fieldPath)} else {}, 1))
  }

  function Resolved(row: ParameterRow, nodes: seq<Node>, indirect: map<Key, IndirectRow>): Result<Resolution> {
    if row.parameterClass == Exception then Ok(Resolution(ExceptionParameter, [], {}, 0))
    else if TableRow(row) || StructureRow(row) then Containing(row, nodes, indirect)
    else Elementwise(row, nodes, indirect)
  }

  /** What an accepted parameter contributes is what its row demands. */
  lemma {:induction false} ResolvedIsOk(row: ParameterRow, nodes: seq<Node>, indirect: map<Key, IndirectRow>)
    requires Resolved(row, nodes, indirect).Ok?
    ensures ResolutionOk(nodes, indirect, row, Resolved(row, nodes, indirect).value)
  {
    if row.parameterClass == Exception {
    } else if TableRow(row) || StructureRow(row) {
      ContainingIsOk(row, nodes, indirect);
    } else {
      ElementwiseIsOk(row, nodes, indirect);
    }
  }

  lemma {:induction false} ContainingIsOk(row: ParameterRow, nodes: seq<Node>, indirect: map<Key, IndirectRow>)
    requires row.parameterClass != Exception && (TableRow(row) || StructureRow(row)) && Containing(row, nodes, indirect).Ok?
    ensures ResolutionOk(nodes, indirect, row, Containing(row, nodes, indirect).value)
  {
    var target := ContainerTarget(row, nodes, indirect).value;
    assert Containing(row, nodes, indirect).value.roots == [target];
  }

  lemma {:induction false} ElementwiseIsOk(row: ParameterRow, nodes: seq<Node>, indirect: map<Key, IndirectRow>)
    requires row.parameterClass != Exception && !TableRow(row) && !StructureRow(row) && Elementwise(row, nodes, indirect).Ok?
    ensures ResolutionOk(nodes, indirect, row, Elementwise(row, nodes, indirect).value)
  {
    assert Elementwise(row, nodes, indirect).value.reference ==
        if ScalarTableRow(row) then ScalarTableParameter(row.internalType) else ScalarParameter(row.internalType);
  }

  /** The named field's reference, found by following its path. */
  method FindFieldReference(row: ParameterRow, nodes: seq<Node>, byName: map<string, nat>) returns (r: Result<Reference>)
    requires byName == IndexByName(nodes)
    ensures r == FieldReference(row, nodes)
  {
    if row.tableName == "" {
      return Err(MissingAssociatedType);
    }
    if row.tableName !in byName {
      return Err(ForeignTypeReference);
    }
    r := ResolveFieldPath(nodes, byName, byName[row.tableName], row.fieldPath);
  }

  method ResolveElementary(row: ParameterRow, nodes: seq<Node>, byName: map<string, nat>, indirect: map<Key, IndirectRow>)
    returns (r: Result<Resolution>)
    requires byName == IndexByName(nodes)
    ensures r == Elementwise(row, nodes, indirect)
  {
    var reference := if ScalarTableRow(row) then ScalarTableParameter(row.internalType) else ScalarParameter(row.internalType);
    if Dashed(row.fieldPath) {
      var mapped := MappedTarget(row, nodes, indirect);
      if mapped.Err? {
        return Err(mapped.code);
      }
      if !Elementary(nodes[byName[mapped.value]]) {
        return Err(ReferenceKindMismatch);
      }
      return Ok(Resolution(reference, [mapped.value], {(row.tableName, row.fieldPath)}, 1));
    }
    if row.fieldPath != "" {
      var direct := FindFieldReference(row, nodes, byName);
      if direct.Err? {
        return Err(direct.code);
      }
      if !direct.value.ScalarReference? {
        return Err(ReferenceKindMismatch);
      }
      return Ok(Resolution(reference, [row.tableName], {}, 1));
    }
    if row.tableName != "" && row.tableName in byName {
      if !Elementary(nodes[byName[row.tableName]]) {
        return Err(ReferenceKindMismatch);
      }
      return Ok(Resolution(reference, [row.tableName], {}, 1));
    }
    return Ok(Resolution(reference, [], {}, if ScalarTableRow(row) then 1 else 0));
  }

  method ResolveContainer(row: ParameterRow, nodes: seq<Node>, byName: map<string, nat>, indirect: map<Key, IndirectRow>)
    returns (r: Result<Resolution>)
    requires byName == IndexByName(nodes)
    ensures r == Containing(row, nodes, indirect)
  {
    if row.tableName == "" {
      return Err(MissingAssociatedType);
    }
    var target := row.tableName;
    var consumed: set<Key> := {};
    if Dashed(row.fieldPath) {
      var key := (row.tableName, row.fieldPath);
      if key !in indirect {
        return Err(MissingIndirectType);
      }
      consumed := {key};
      target := indirect[key].targetType;
    } else if row.fieldPath != "" {
      var resolved := FindFieldReference(row, nodes, byName);
      if resolved.Err? {
        return Err(resolved.code);
      }
      if resolved.value.ScalarReference? {
        return Err(ReferenceKindMismatch);
      }
      target := resolved.value.target;
    }
    if target !in byName {
      return Err(ForeignTypeReference);
    }
    if StructureRow(row) && nodes[byName[target]].kind != Structure {
      return Err(ReferenceKindMismatch);
    }
    if row.internalType == "h" && nodes[byName[target]].kind != Table {
      return Err(ReferenceKindMismatch);
    }
    return Ok(Resolution(NodeParameter(if TableRow(row) then Table else Structure, row.internalType, target), [target], consumed, 1));
  }

  method ResolveRow(row: ParameterRow, nodes: seq<Node>, byName: map<string, nat>, indirect: map<Key, IndirectRow>)
    returns (r: Result<Resolution>)
    requires byName == IndexByName(nodes)
    ensures r == Resolved(row, nodes, indirect)
  {
    if row.parameterClass == Exception {
      r := Ok(Resolution(ExceptionParameter, [], {}, 0));
    } else if TableRow(row) || StructureRow(row) {
      r := ResolveContainer(row, nodes, byName, indirect);
    } else {
      r := ResolveElementary(row, nodes, byName, indirect);
    }
  }

  // ---------------------------------------------------------------- all parameters

  /** Append the names not yet present, in order. */
  function AddRoots(roots: seq<string>, more: seq<string>): (r: seq<string>)
    ensures forall name :: name in r <==> name in roots || name in more
    decreases |more|
  {
    if more == [] then roots
    else AddRoots(if more[0] in roots then roots else roots + [more[0]], more[1..])
  }

  lemma {:induction false} AddRootsDistinct(roots: seq<string>, more: seq<string>)
    requires DistinctRoots(roots)
    ensures DistinctRoots(AddRoots(roots, more))
    decreases |more|
  {
    if more != [] {
      AddRootsDistinct(if more[0] in roots then roots else roots + [more[0]], more[1..]);
    }
  }

  datatype Parameters = Parameters(values: seq<Parameter>, rootTypes: seq<string>, totalEdges: nat)

  function NameOf(row: ParameterRow): (string, string) {
    (row.functionName, row.name)
  }

  ghost predicate DistinctParameters(rows: seq<ParameterRow>) {
    forall i, j :: 0 <= i < j < |rows| ==> NameOf(rows[i]) != NameOf(rows[j])
  }

  ghost predicate AllResolved(rows: seq<ParameterRow>, nodes: seq<Node>, indirect: map<Key, IndirectRow>) {
    forall i :: 0 <= i < |rows| ==> Resolved(rows[i], nodes, indirect).Ok?
  }

  /** The parameters of resolved rows: values in order, the types they root, the edges with those of the nodes. */
  ghost function ParametersFor(rows: seq<ParameterRow>, nodes: seq<Node>, indirect: map<Key, IndirectRow>): (p: Parameters)
    requires AllResolved(rows, nodes, indirect)
    ensures |p.values| == |rows|
    decreases |rows|
  {
    if rows == [] then Parameters([], [], TotalEdges(nodes))
    else
      var n := |rows| - 1;
      assert AllResolved(rows[..n], nodes, indirect);
      AddParameter(ParametersFor(rows[..n], nodes, indirect), rows[n], Resolved(rows[n], nodes, indirect).value)
  }

  function AddParameter(p: Parameters, row: ParameterRow, r: Resolution): Parameters {
    Parameters(p.values + [Parameter(row, r.reference)], AddRoots(p.rootTypes, r.roots), p.totalEdges + r.edges)
  }

  /** The indirect keys that resolved rows use. */
  ghost predicate Uses(rows: seq<ParameterRow>, nodes: seq<Node>, indirect: map<Key, IndirectRow>, key: Key) {
    exists i :: 0 <= i < |rows| && Resolved(rows[i], nodes, indirect).Ok? && key in Resolved(rows[i], nodes, indirect).value.consumed
  }

  /** Indirect rows are declared properly, every parameter resolves, and no declaration is unused or repeated. */
  ghost predicate ParametersAcceptable(rows: seq<ParameterRow>, indirectRows: seq<IndirectRow>, nodes: seq<Node>,
      limits: Limits)
  {
    var indirect := EntriesOf(indirectRows);
    && IndirectAcceptable(indirectRows)
    && DistinctParameters(rows) && AllResolved(rows, nodes, indirect)
    && ParametersFor(rows, nodes, indirect).totalEdges <= limits.maxEdges
    && (forall i :: 0 <= i < |indirectRows| ==> Uses(rows, nodes, indirect, KeyOf(indirectRows[i])))
  }

  ghost predicate ParametersFault(rows: seq<ParameterRow>, indirectRows: seq<IndirectRow>, nodes: seq<Node>,
      limits: Limits, code: Code)
  {
    var indirect := EntriesOf(indirectRows);
    || (!IndirectAcceptable(indirectRows) && (code == InvalidIndirectPath || code == DuplicateIndirectType))
    || (code == DuplicateParameter && !DistinctParameters(rows))
    || (exists i :: 0 <= i < |rows| && Resolved(rows[i], nodes, indirect) == Err(code))
    || (code == EdgeLimit && exists n :: 0 <= n <= |rows| && AllResolved(rows[..n], nodes, indirect) &&
                                         ParametersFor(rows[..n], nodes, indirect).totalEdges > limits.maxEdges)
    || (code == ForeignIndirectType && exists i :: 0 <= i < |indirectRows| && !Uses(rows, nodes, indirect, KeyOf(indirectRows[i])))
  }

  lemma {:induction false} EdgesGrow(rows: seq<ParameterRow>, nodes: seq<Node>, indirect: map<Key, IndirectRow>, n: nat)
    requires n <= |rows| && AllResolved(rows, nodes, indirect)
    ensures AllResolved(rows[..n], nodes, indirect)
    ensures ParametersFor(rows[..n], nodes, indirect).totalEdges <= ParametersFor(rows, nodes, indirect).totalEdges
    decreases |rows|
  {
    if n == |rows| {
      assert rows[..n] == rows;
    } else {
      var front := rows[..|rows| - 1];
      assert AllResolved(front, nodes, indirect);
      EdgesGrow(front, nodes, indirect, n);
      assert front[..n] == rows[..n];
    }
  }

  lemma {:induction false} ParametersFaultRefutes(rows: seq<ParameterRow>, indirectRows: seq<IndirectRow>,
      nodes: seq<Node>, limits: Limits, code: Code)
    requires ParametersFault(rows, indirectRows, nodes, limits, code)
    ensures !ParametersAcceptable(rows, indirectRows, nodes, limits)
  {
    var indirect := EntriesOf(indirectRows);
    if code == EdgeLimit && AllResolved(rows, nodes, indirect) {
      forall n | 0 <= n <= |rows| && AllResolved(rows[..n], nodes, indirect)
        ensures ParametersFor(rows[..n], nodes, indirect).totalEdges <= ParametersFor(rows, nodes, indirect).totalEdges
      {
        EdgesGrow(rows, nodes, indirect, n);
      }
    }
  }

  /** What accepted parameters guarantee. */
  ghost predicate ParametersOk(nodes: seq<Node>, rows: seq<ParameterRow>, p: Parameters) {
    && |p.values| == |rows|
    && (forall i :: 0 <= i < |rows| ==> p.values[i].row == rows[i] && ParameterOk(nodes, rows[i], p.values[i].reference, p.rootTypes))
    && RootsExist(nodes, p.rootTypes)
    && DistinctRoots(p.rootTypes)
  }

  lemma {:induction false} ParametersForAreOk(rows: seq<ParameterRow>, nodes: seq<Node>, indirect: map<Key, IndirectRow>)
    requires AllResolved(rows, nodes, indirect)
    ensures ParametersOk(nodes, rows, ParametersFor(rows, nodes, indirect))
    ensures ParametersFor(rows, nodes, indirect).totalEdges >= TotalEdges(nodes)
    decreases |rows|
  {
    if rows != [] {
      var n := |rows| - 1;
      assert AllResolved(rows[..n], nodes, indirect);
      ParametersForAreOk(rows[..n], nodes, indirect);
      ResolvedIsOk(rows[n], nodes, indirect);
      OneMoreParameter(rows, nodes, indirect, ParametersFor(rows[..n], nodes, indirect), Resolved(rows[n], nodes, indirect).value);
    }
  }

  lemma {:induction false} OneMoreParameter(rows: seq<ParameterRow>, nodes: seq<Node>,
      indirect: map<Key, IndirectRow>, p: Parameters, r: Resolution)
    requires rows != [] && ParametersOk(nodes, rows[..|rows| - 1], p) && ResolutionOk(nodes, indirect, rows[|rows| - 1], r)
    ensures ParametersOk(nodes, rows, AddParameter(p, rows[|rows| - 1], r))
  {
    var n := |rows| - 1;
    var more := AddParameter(p, rows[n], r);
    AddRootsDistinct(p.rootTypes, r.roots);
    forall k | 0 <= k < |more.rootTypes| ensures more.rootTypes[k] in IndexByName(nodes) {
      assert more.rootTypes[k] in more.rootTypes;
    }
    forall i | 0 <= i < |rows| ensures more.values[i].row == rows[i] && ParameterOk(nodes, rows[i], more.values[i].reference, more.rootTypes) {
      if i < n {
        assert rows[..n][i] == rows[i] && more.values[i] == p.values[i];
        ParameterOkMoreRoots(nodes, rows[i], p.values[i].reference, p.rootTypes, more.rootTypes);
      }
    }
  }

  lemma {:induction false} ParameterOkMoreRoots(nodes: seq<Node>, row: ParameterRow, reference: ParameterReference,
      roots: seq<string>, more: seq<string>)
    requires ParameterOk(nodes, row, reference, roots) && forall name :: name in roots ==> name in more
    ensures ParameterOk(nodes, row, reference, more)
  {}

  /** A non-exception parameter that names an indirect row's key. */
  ghost predicate Consumed(rows: seq<ParameterRow>, key: Key) {
    exists i :: 0 <= i < |rows| && rows[i].parameterClass != Exception && (rows[i].tableName, rows[i].fieldPath) == key
  }

  lemma {:induction false} UsedIsConsumed(rows: seq<ParameterRow>, nodes: seq<Node>, indirect: map<Key, IndirectRow>,
      key: Key)
    requires Uses(rows, nodes, indirect, key)
    ensures Consumed(rows, key)
  {
    var i :| 0 <= i < |rows| && Resolved(rows[i], nodes, indirect).Ok? && key in Resolved(rows[i], nodes, indirect).value.consumed;
    ResolvedIsOk(rows[i], nodes, indirect);
  }

  /** The rows before the index are resolved, and what they contribute is collected. */
  ghost predicate ResolvedTo(rows: seq<ParameterRow>, index: nat, nodes: seq<Node>, indirect: map<Key, IndirectRow>,
                             p: Parameters, consumed: set<Key>, names: set<(string, string)>)
  {
    && index <= |rows| && AllResolved(rows[..index], nodes, indirect) && p == ParametersFor(rows[..index], nodes, indirect)
    && (forall key :: key in consumed <==> Uses(rows[..index], nodes, indirect, key))
    && names == (set i | 0 <= i < index :: NameOf(rows[i]))
    && DistinctParameters(rows[..index])
  }

  lemma {:induction false} ResolvedNext(rows: seq<ParameterRow>, index: nat, nodes: seq<Node>,
      indirect: map<Key, IndirectRow>,
                                        p: Parameters, consumed: set<Key>, names: set<(string, string)>, r: Resolution)
    requires index < |rows| && ResolvedTo(rows, index, nodes, indirect, p, consumed, names)
    requires NameOf(rows[index]) !in names && Resolved(rows[index], nodes, indirect) == Ok(r)
    ensures ResolvedTo(rows, index + 1, nodes, indirect, AddParameter(p, rows[index], r), consumed + r.consumed, names + {NameOf(rows[index])})
  {
    ParametersNext(rows, index, nodes, indirect);
    NamesNext(rows, index);
    UsesOneMore(rows, index, nodes, indirect);
  }

  lemma {:induction false} ParametersNext(rows: seq<ParameterRow>, index: nat, nodes: seq<Node>,
      indirect: map<Key, IndirectRow>)
    requires index < |rows| && AllResolved(rows[..index], nodes, indirect) && Resolved(rows[index], nodes, indirect).Ok?
    ensures AllResolved(rows[..index + 1], nodes, indirect)
    ensures ParametersFor(rows[..index + 1], nodes, indirect) ==
            AddParameter(ParametersFor(rows[..index], nodes, indirect), rows[index], Resolved(rows[index], nodes, indirect).value)
  {
    var front, whole := rows[..index], rows[..index + 1];
    assert whole[..index] == front;
    forall i | 0 <= i < |whole| ensures Resolved(whole[i], nodes, indirect).Ok? {
      assert i < index ==> whole[i] == front[i];
    }
  }

  lemma {:induction false} NamesNext(rows: seq<ParameterRow>, index: nat)
    requires index < |rows|
    ensures (set i | 0 <= i < index + 1 :: NameOf(rows[i])) == (set i | 0 <= i < index :: NameOf(rows[i])) + {NameOf(rows[index])}
    ensures DistinctParameters(rows[..index]) && (forall i :: 0 <= i < index ==> NameOf(rows[i]) != NameOf(rows[index])) ==>
              DistinctParameters(rows[..index + 1])
  {
    var front, whole := rows[..index], rows[..index + 1];
    assert forall i :: 0 <= i < index ==> whole[i] == front[i];
  }

  lemma {:induction false} UsesOneMore(rows: seq<ParameterRow>, index: nat, nodes: seq<Node>,
      indirect: map<Key, IndirectRow>)
    requires index < |rows| && Resolved(rows[index], nodes, indirect).Ok?
    ensures forall key :: Uses(rows[..index + 1], nodes, indirect, key) <==>
              Uses(rows[..index], nodes, indirect, key) || key in Resolved(rows[index], nodes, indirect).value.consumed
  {
    var consumed := Resolved(rows[index], nodes, indirect).value.consumed;
    forall key
      ensures Uses(rows[..index + 1], nodes, indirect, key) <==> Uses(rows[..index], nodes, indirect, key) || key in consumed
    {
      OneKeyMore(rows[..index], rows[index], nodes, indirect, key);
      assert rows[..index + 1] == rows[..index] + [rows[index]];
    }
  }

  lemma {:induction false} OneKeyMore(front: seq<ParameterRow>, row: ParameterRow, nodes: seq<Node>,
      indirect: map<Key, IndirectRow>, key: Key)
    requires Resolved(row, nodes, indirect).Ok?
    ensures Uses(front + [row], nodes, indirect, key) <==>
              Uses(front, nodes, indirect, key) || key in Resolved(row, nodes, indirect).value.consumed
  {
    var whole := front + [row];
    if Uses(whole, nodes, indirect, key) {
      var i :| 0 <= i < |whole| && Resolved(whole[i], nodes, indirect).Ok? && key in Resolved(whole[i], nodes, indirect).value.consumed;
      assert whole[i] == if i < |front| then front[i] else row;
    }
    if Uses(front, nodes, indirect, key) {
      var i :| 0 <= i < |front| && Resolved(front[i], nodes, indirect).Ok? && key in Resolved(front[i], nodes, indirect).value.consumed;
      assert whole[i] == front[i];
    }
    assert whole[|front|] == row;
  }

  /** A row that repeats a name or does not resolve is a fault. */
  lemma {:induction false} FaultyRow(rows: seq<ParameterRow>, indirectRows: seq<IndirectRow>, nodes: seq<Node>,
      limits: Limits, index: nat,
                                     p: Parameters, consumed: set<Key>, names: set<(string, string)>)
    requires index < |rows| && ResolvedTo(rows, index, nodes, EntriesOf(indirectRows), p, consumed, names)
    ensures NameOf(rows[index]) in names ==> ParametersFault(rows, indirectRows, nodes, limits, DuplicateParameter)
    ensures var r := Resolved(rows[index], nodes, EntriesOf(indirectRows)); r.Err? ==> ParametersFault(rows, indirectRows, nodes, limits, r.code)
  {}

  lemma {:induction false} TooManyEdges(rows: seq<ParameterRow>, indirectRows: seq<IndirectRow>, nodes: seq<Node>,
      limits: Limits, index: nat,
                                        p: Parameters, consumed: set<Key>, names: set<(string, string)>)
    requires ResolvedTo(rows, index, nodes, EntriesOf(indirectRows), p, consumed, names) && p.totalEdges > limits.maxEdges
    ensures ParametersFault(rows, indirectRows, nodes, limits, EdgeLimit)
  {}

  /** After the last row, only an unused indirect row can be wrong. */
  lemma {:induction false} AllRowsResolved(rows: seq<ParameterRow>, indirectRows: seq<IndirectRow>, nodes: seq<Node>,
      limits: Limits,
                                           p: Parameters, consumed: set<Key>, names: set<(string, string)>)
    requires ResolvedTo(rows, |rows|, nodes, EntriesOf(indirectRows), p, consumed, names)
    requires IndirectAcceptable(indirectRows) && p.totalEdges <= limits.maxEdges
    ensures if exists i :: 0 <= i < |indirectRows| && KeyOf(indirectRows[i]) !in consumed
            then ParametersFault(rows, indirectRows, nodes, limits, ForeignIndirectType)
            else ParametersAcceptable(rows, indirectRows, nodes, limits) && p == ParametersFor(rows, nodes, EntriesOf(indirectRows))
  {
    assert rows[..|rows|] == rows;
  }

  /**
   * Resolve every parameter. Accepted exactly when each resolves, the limits hold, and
   * every indirect row is used; the values, roots and edges are those of the rows.
   */
  method ProvisionalParameters(rows: seq<ParameterRow>, indirectRows: seq<IndirectRow>, nodes: seq<Node>, limits: Limits)
    returns (r: Result<Parameters>)
    requires TotalEdges(nodes) <= limits.maxEdges
    ensures r.Ok? ==> ParametersAcceptable(rows, indirectRows, nodes, limits)
    ensures r.Ok? ==> r.value == ParametersFor(rows, nodes, EntriesOf(indirectRows))
    ensures r.Err? ==> ParametersFault(rows, indirectRows, nodes, limits, r.code)
  {
    var byName := IndexByName(nodes);
    var indirectMap := IndirectMap(indirectRows);
    if indirectMap.Err? {
      return Err(indirectMap.code);
    }
    var indirect := indirectMap.value;
    var consumed: set<Key> := {};
    var parameters: set<(string, string)> := {};
    var result := Parameters([], [], TotalEdges(nodes));
    assert rows[..0] == [];
    for index := 0 to |rows|
      invariant ResolvedTo(rows, index, nodes, indirect, result, consumed, parameters)
      invariant result.totalEdges <= limits.maxEdges
    {
      var row := rows[index];
      FaultyRow(rows, indirectRows, nodes, limits, index, result, consumed, parameters);
      if NameOf(row) in parameters {
        return Err(DuplicateParameter);
      }
      var resolution := ResolveRow(row, nodes, byName, indirect);
      if resolution.Err? {
        return Err(resolution.code);
      }
      ResolvedNext(rows, index, nodes, indirect, result, consumed, parameters, resolution.value);
      parameters := parameters + {NameOf(row)};
      result := AddParameter(result, row, resolution.value);
      consumed := consumed + resolution.value.consumed;
      if result.totalEdges > limits.maxEdges {
        TooManyEdges(rows, indirectRows, nodes, limits, index + 1, result, consumed, parameters);
        return Err(EdgeLimit);
      }
    }
    AllRowsResolved(rows, indirectRows, nodes, limits, result, consumed, parameters);
    if exists i :: 0 <= i < |indirectRows| && KeyOf(indirectRows[i]) !in consumed {
      return Err(ForeignIndirectType);
    }
    return Ok(result);
  }
}
