/**
 * Which rows are accepted and what graph they give, said of the rows alone: the layout of the
 * types, the targets of all references, the roots in their order, and the number of edges.
 */
module ClosureGraph {
  import opened Graphs
  import opened Descents
  import opened MetadataNodes
  import opened MetadataReferences
  import opened MetadataFunctions
  import opened Metadata
  import opened Normalizer
  import opened ClosureContents
  import opened ParameterTypes

  // ---------------------------------------------------------------- the layout of types

  /** A row ends within its type, and names a type if it refers to one. */
  predicate RowFits(row: TypeRow) {
    && (IsRef(row.internalType) ==> row.associatedType != "")
    && ExtentFits(row, row.nucOffset + row.nucLength, row.nucTotalLength) && ExtentFits(row, row.ucOffset + row.ucLength, row.ucTotalLength)
  }

  predicate ExtentFits(row: TypeRow, end: nat, total: nat) {
    end <= MAX_SAFE && (end <= total || (total == 0 && row.fieldName == "" && !IsRef(row.internalType)))
  }

  /** Two fields of a type have names, and different ones; the earlier ends before the later begins. */
  predicate RowsAgree(a: TypeRow, b: TypeRow) {
    && a.fieldName != b.fieldName && a.fieldName != "" && b.fieldName != ""
    && a.nucOffset + a.nucLength <= b.nucOffset && a.ucOffset + a.ucLength <= b.ucOffset
    && a.nucTotalLength == b.nucTotalLength && a.ucTotalLength == b.ucTotalLength && a.timestamp == b.timestamp
  }

  ghost predicate TypesFit(rows: seq<TypeRow>) {
    && (forall k :: 0 <= k < |rows| ==> RowFits(rows[k]))
    && forall j, k :: 0 <= j < k < |rows| && rows[j].typeName == rows[k].typeName ==> RowsAgree(rows[j], rows[k])
  }

  lemma {:induction false} FitsOfGroup(rows: seq<TypeRow>, nuc: nat, uc: nat)
    requires rows != [] && (Anonymous(rows) ==> |rows| == 1)
    requires NucTotal(rows) == Ok(nuc) && UcTotal(rows) == Ok(uc) && FieldsAcceptable(rows, nuc, uc)
    ensures TypesFit(rows)
  {
    AcceptableFieldsLaidOut(rows, nuc, uc);
    forall k | 0 <= k < |rows| ensures RowFits(rows[k]) {
      RowFitsOfGroup(rows, nuc, uc, k);
    }
    forall j, k | 0 <= j < k < |rows| ensures RowsAgree(rows[j], rows[k]) {
      var fields := FieldsFor(rows);
      assert NucEnd(fields[j]) <= fields[k].nucOffset && UcEnd(fields[j]) <= fields[k].ucOffset && fields[j].name != fields[k].name;
      assert RowAcceptable(rows, j, nuc, uc) && RowAcceptable(rows, k, nuc, uc);
    }
  }

  lemma {:induction false} RowFitsOfGroup(rows: seq<TypeRow>, nuc: nat, uc: nat, k: nat)
    requires k < |rows| && (Anonymous(rows) ==> |rows| == 1)
    requires NucTotal(rows) == Ok(nuc) && UcTotal(rows) == Ok(uc) && RowAcceptable(rows, k, nuc, uc)
    ensures RowFits(rows[k])
  {}

  lemma {:induction false} GroupOfFits(rows: seq<TypeRow>)
    requires rows != [] && TypesFit(rows) && forall k :: 0 <= k < |rows| ==> rows[k].typeName == rows[0].typeName
    ensures NodeAcceptable(Group(rows[0].typeName, rows))
  {
    assert RowFits(rows[0]);
    forall j, k | 0 <= j < k < |rows| ensures RowsAgree(rows[j], rows[k]) {
      assert rows[j].typeName == rows[k].typeName;
    }
    NamedUnlessAlone(rows);
    var nuc, uc := NucTotal(rows).value, UcTotal(rows).value;
    forall k | 0 <= k < |rows| ensures RowAcceptable(rows, k, nuc, uc) {
      GroupRowOfFits(rows, k);
    }
  }

  lemma {:induction false} NamedUnlessAlone(rows: seq<TypeRow>)
    requires rows != [] && forall j, k :: 0 <= j < k < |rows| ==> RowsAgree(rows[j], rows[k])
    ensures Anonymous(rows) ==> |rows| == 1
  {
    if |rows| > 1 {
      forall k | 0 <= k < |rows| ensures rows[k].fieldName != "" {
        assert RowsAgree(rows[if k == 0 then 0 else k - 1], rows[if k == 0 then 1 else k]);
      }
    }
  }

  lemma {:induction false} GroupRowOfFits(rows: seq<TypeRow>, k: nat)
    requires k < |rows| && RowFits(rows[k]) && RowFits(rows[0]) && (Anonymous(rows) ==> |rows| == 1)
    requires k > 0 ==> RowsAgree(rows[0], rows[k]) && RowsAgree(rows[k - 1], rows[k])
    ensures NucTotal(rows).Ok? && UcTotal(rows).Ok? && RowAcceptable(rows, k, NucTotal(rows).value, UcTotal(rows).value)
  {}

  lemma {:induction false} RowInGroup(groups: seq<Group>, k: nat) returns (i: nat, m: nat)
    requires k < |Flatten(groups)|
    ensures i < |groups| && m < |groups[i].rows| && k == |Flatten(groups[..i])| + m && groups[i].rows[m] == Flatten(groups)[k]
    decreases |groups|
  {
    var n := |groups| - 1;
    var before := |Flatten(groups[..n])|;
    if k < before {
      i, m := RowInGroup(groups[..n], k);
      assert groups[..n][..i] == groups[..i];
    } else {
      i, m := n, k - before;
    }
  }

  /** Rows of the same type stand in the same group. */
  lemma {:induction false} SameGroup(groups: seq<Group>, j: nat, k: nat) returns (i: nat, m: nat, n: nat)
    requires GroupsNamed(groups) && DistinctGroups(groups)
    requires j < k < |Flatten(groups)| && Flatten(groups)[j].typeName == Flatten(groups)[k].typeName
    ensures i < |groups| && m < n < |groups[i].rows| && groups[i].rows[m] == Flatten(groups)[j] && groups[i].rows[n] == Flatten(groups)[k]
  {
    i, m := RowInGroup(groups, j);
    var i', n' := RowInGroup(groups, k);
    assert groups[i].name == groups[i'].name;
    assert i == i';
    n := n';
  }

  lemma {:induction false} GroupsFit(groups: seq<Group>)
    requires GroupsNamed(groups) && DistinctGroups(groups)
    ensures (forall i :: 0 <= i < |groups| ==> NodeAcceptable(groups[i])) <==> TypesFit(Flatten(groups))
  {
    if forall i :: 0 <= i < |groups| ==> NodeAcceptable(groups[i]) {
      FlattenFits(groups);
    }
    if TypesFit(Flatten(groups)) {
      forall i | 0 <= i < |groups| ensures NodeAcceptable(groups[i]) {
        GroupFits(groups, i);
      }
    }
  }

  lemma {:induction false} AcceptableGroupFits(group: Group)
    requires NodeAcceptable(group)
    ensures forall k :: 0 <= k < |group.rows| ==> RowFits(group.rows[k])
    ensures forall j, k :: 0 <= j < k < |group.rows| && group.rows[j].typeName == group.rows[k].typeName ==> RowsAgree(group.rows[j], group.rows[k])
  {
    FitsOfGroup(group.rows, NucTotal(group.rows).value, UcTotal(group.rows).value);
  }

  lemma {:induction false} FlattenFits(groups: seq<Group>)
    requires GroupsNamed(groups) && DistinctGroups(groups) && forall i :: 0 <= i < |groups| ==> NodeAcceptable(groups[i])
    ensures TypesFit(Flatten(groups))
  {
    var rows := Flatten(groups);
    forall k | 0 <= k < |rows| ensures RowFits(rows[k]) {
      var i, m := RowInGroup(groups, k);
      AcceptableGroupFits(groups[i]);
    }
    forall j, k | 0 <= j < k < |rows| && rows[j].typeName == rows[k].typeName ensures RowsAgree(rows[j], rows[k]) {
      var i, m, n := SameGroup(groups, j, k);
      AcceptableGroupFits(groups[i]);
    }
  }

  lemma {:induction false} GroupFits(groups: seq<Group>, i: nat)
    requires GroupsNamed(groups) && TypesFit(Flatten(groups)) && i < |groups|
    ensures NodeAcceptable(groups[i])
  {
    var rows, before := Flatten(groups), |Flatten(groups[..i])|;
    assert TypesFit(groups[i].rows) by {
      forall m | 0 <= m < |groups[i].rows| ensures RowFits(groups[i].rows[m]) {
        FlattenAt(groups, i, m);
        assert RowFits(rows[before + m]);
      }
      forall m, n | 0 <= m < n < |groups[i].rows| && groups[i].rows[m].typeName == groups[i].rows[n].typeName
        ensures RowsAgree(groups[i].rows[m], groups[i].rows[n])
      {
        FlattenAt(groups, i, m);
        FlattenAt(groups, i, n);
        assert RowsAgree(rows[before + m], rows[before + n]);
      }
    }
    GroupOfFits(groups[i].rows);
  }

  // ---------------------------------------------------------------- the number of types and references

  ghost function TypeNames(rows: seq<TypeRow>): set<string> {
    set k | 0 <= k < |rows| :: rows[k].typeName
  }

  ghost function RefRows(rows: seq<TypeRow>): set<nat> {
    set k: nat | k < |rows| && IsRef(rows[k].internalType)
  }

  lemma {:induction false} RefRowsCount(rows: seq<TypeRow>)
    ensures EdgeRows(rows) == |RefRows(rows)|
  {
    if rows != [] {
      var n := |rows| - 1;
      RefRowsCount(rows[..n]);
      assert RefRows(rows) == RefRows(rows[..n]) + if IsRef(rows[n].internalType) then {n as nat} else {};
    }
  }

  lemma {:induction false} GroupNames(groups: seq<Group>) returns (names: set<string>)
    requires DistinctGroups(groups)
    ensures |names| == |groups| && names == set i | 0 <= i < |groups| :: groups[i].name
  {
    names := {};
    for i := 0 to |groups|
      invariant |names| == i && names == set j | 0 <= j < i :: groups[j].name
    {
      names := names + {groups[i].name};
    }
  }

  lemma {:induction false} GroupsAreTypes(groups: seq<Group>)
    requires GroupsNamed(groups) && DistinctGroups(groups)
    ensures |groups| == |TypeNames(Flatten(groups))|
  {
    var names := GroupNames(groups);
    var rows := Flatten(groups);
    forall i | 0 <= i < |groups| ensures groups[i].name in TypeNames(rows) {
      FlattenAt(groups, i, 0);
    }
    forall k | 0 <= k < |rows| ensures rows[k].typeName in names {
      var i, m := RowInGroup(groups, k);
    }
    assert names == TypeNames(rows);
  }

  // ---------------------------------------------------------------- references

  /** Every referenced type is there: a table for "h", a structure for "u" and "v". */
  ghost predicate ReferencesMet(c: Closure) {
    forall k :: 0 <= k < |c.typeRows| && IsRef(c.typeRows[k].internalType) ==>
                  if c.typeRows[k].internalType == "h" then TableType(c, c.typeRows[k].associatedType)
                  else StructureType(c, c.typeRows[k].associatedType)
  }

  ghost predicate TypeRefers(c: Closure, a: string, b: string) {
    exists k :: 0 <= k < |c.typeRows| && c.typeRows[k].typeName == a && IsRef(c.typeRows[k].internalType) && c.typeRows[k].associatedType == b
  }

  lemma {:induction false} TargetIsMet(c: Closure, nodes: seq<Node>, k: nat, reference: Reference)
    requires NodesFit(c, nodes) && k < |c.typeRows| && ReferenceOfRow(reference, c.typeRows[k])
    ensures TargetOk(nodes, reference) <==>
            (IsRef(c.typeRows[k].internalType) ==>
               if c.typeRows[k].internalType == "h" then TableType(c, c.typeRows[k].associatedType)
               else StructureType(c, c.typeRows[k].associatedType))
  {
    if IsRef(c.typeRows[k].internalType) {
      NodeIsDeclared(c, nodes, c.typeRows[k].associatedType);
      if Declared(c, c.typeRows[k].associatedType) {
        NodeKinds(c, nodes, c.typeRows[k].associatedType);
      }
    }
  }

  lemma {:induction false} TargetsMet(c: Closure, nodes: seq<Node>)
    requires NodesFit(c, nodes)
    ensures TargetsClosed(nodes) <==> ReferencesMet(c)
  {
    if TargetsClosed(nodes) {
      forall k | 0 <= k < |c.typeRows| && IsRef(c.typeRows[k].internalType)
        ensures if c.typeRows[k].internalType == "h" then TableType(c, c.typeRows[k].associatedType)
                else StructureType(c, c.typeRows[k].associatedType)
      {
        var v, m := RowInNode(c, nodes, k);
        assert TargetOk(nodes, nodes[v].fields[m].reference);
        TargetIsMet(c, nodes, k, nodes[v].fields[m].reference);
      }
    }
    if ReferencesMet(c) {
      forall v, m | 0 <= v < |nodes| && 0 <= m < |nodes[v].fields| ensures TargetOk(nodes, nodes[v].fields[m].reference) {
        var k := FieldInRows(c, nodes, v, m);
        TargetIsMet(c, nodes, k, nodes[v].fields[m].reference);
      }
    }
  }

  /** The edges of the graph are the references between types. */
  lemma {:induction false} EdgeIsRow(c: Closure, nodes: seq<Node>, u: nat, v: nat)
    requires NodesFit(c, nodes) && TargetsClosed(nodes) && u < |nodes| && v < |nodes|
    ensures Edge(Adjacency(nodes), u, v) <==> TypeRefers(c, nodes[u].name, nodes[v].name)
  {
    EdgeIsReference(nodes, u, v);
    if Edge(Adjacency(nodes), u, v) {
      var m: nat :| Refers(nodes, u, m, v);
      var k := FieldInRows(c, nodes, u, m);
    }
    if TypeRefers(c, nodes[u].name, nodes[v].name) {
      var k :| 0 <= k < |c.typeRows| && c.typeRows[k].typeName == nodes[u].name && IsRef(c.typeRows[k].internalType) &&
        c.typeRows[k].associatedType == nodes[v].name;
      var i, m := RowInNode(c, nodes, k);
      IndexIs(nodes, u);
      IndexIs(nodes, v);
      assert Refers(nodes, u, m, v);
    }
  }

  lemma {:induction false} IndexIs(nodes: seq<Node>, v: nat)
    requires DistinctNames(nodes) && v < |nodes|
    ensures nodes[v].name in IndexByName(nodes) && IndexByName(nodes)[nodes[v].name] == v
  {}

  // ---------------------------------------------------------------- all parameters

  ghost predicate Mentioned(c: Closure, rows: seq<ParameterRow>, name: string) {
    exists q :: 0 <= q < |rows| && RootOf(c, rows[q], name)
  }

  /** The types of the parameters, each once, in the order in which the parameters first mention them. */
  ghost predicate AreTypesOf(c: Closure, rows: seq<ParameterRow>, types: seq<string>) {
    && (forall name :: name in types <==> Mentioned(c, rows, name))
    && DistinctRoots(types) && FirstMentioned(c, rows, types)
  }

  ghost predicate FirstMentioned(c: Closure, rows: seq<ParameterRow>, types: seq<string>) {
    forall i, j, q :: 0 <= i < j < |types| && 0 <= q < |rows| && RootOf(c, rows[q], types[j]) ==> Mentioned(c, rows[..q], types[i])
  }

  ghost function EdgeParameters(c: Closure, rows: seq<ParameterRow>): set<nat> {
    set q: nat | q < |rows| && CountsAsEdge(c, rows[q])
  }

  ghost predicate AreParameters(c: Closure, rows: seq<ParameterRow>, values: seq<Parameter>) {
    |values| == |rows| && forall i :: 0 <= i < |rows| ==> values[i].row == rows[i] && ReferenceOfParameter(c, rows[i], values[i].reference)
  }

  lemma {:induction false} MentionedMore(c: Closure, rows: seq<ParameterRow>, row: ParameterRow, name: string)
    ensures Mentioned(c, rows + [row], name) <==> Mentioned(c, rows, name) || RootOf(c, row, name)
  {
    var whole := rows + [row];
    if q :| 0 <= q < |rows| && RootOf(c, rows[q], name) {
      assert whole[q] == rows[q];
    }
    assert whole[|rows|] == row;
  }

  lemma {:induction false} OneMoreType(c: Closure, rows: seq<ParameterRow>, row: ParameterRow, types: seq<string>, roots: seq<string>)
    requires AreTypesOf(c, rows, types) && |roots| <= 1 && forall name :: name in roots <==> RootOf(c, row, name)
    ensures AreTypesOf(c, rows + [row], AddRoots(types, roots))
  {
    var whole, more := rows + [row], AddRoots(types, roots);
    assert roots == [] || more == if roots[0] in types then types else types + roots;
    forall name ensures name in more <==> Mentioned(c, whole, name) {
      MentionedMore(c, rows, row, name);
    }
    forall i, j, q | 0 <= i < j < |more| && 0 <= q < |whole| && RootOf(c, whole[q], more[j]) ensures Mentioned(c, whole[..q], more[i]) {
      StillFirst(c, rows, row, types, more, i, j, q);
    }
  }

  lemma {:induction false} StillFirst(c: Closure, rows: seq<ParameterRow>, row: ParameterRow, types: seq<string>, more: seq<string>,
      i: nat, j: nat, q: nat)
    requires AreTypesOf(c, rows, types) && (more == types || (|more| == |types| + 1 && types <= more && more[|types|] !in types))
    requires i < j < |more| && q < |rows + [row]| && RootOf(c, (rows + [row])[q], more[j])
    ensures Mentioned(c, (rows + [row])[..q], more[i])
  {
    assert q <= |rows| ==> (rows + [row])[..q] == rows[..q];
    assert rows[..|rows|] == rows;
    assert more[i] == types[i] && types[i] in types;
    if q < |rows| {
      assert Mentioned(c, rows, more[j]);
      assert more[j] in types;
    }
  }

  lemma {:induction false} OneMoreEdge(c: Closure, rows: seq<ParameterRow>, row: ParameterRow)
    ensures |EdgeParameters(c, rows + [row])| == |EdgeParameters(c, rows)| + if CountsAsEdge(c, row) then 1 else 0
  {
    assert EdgeParameters(c, rows + [row]) == EdgeParameters(c, rows) + if CountsAsEdge(c, row) then {|rows|} else {};
  }

  /** The parameters, their types and their edges. */
  lemma {:induction false} ParametersSay(c: Closure, nodes: seq<Node>, rows: seq<ParameterRow>)
    requires NodesFit(c, nodes) && AllResolved(rows, nodes, EntriesOf(c.indirectRows))
    ensures var p := ParametersFor(rows, nodes, EntriesOf(c.indirectRows));
            && AreParameters(c, rows, p.values) && AreTypesOf(c, rows, p.rootTypes)
            && p.totalEdges == TotalEdges(nodes) + |EdgeParameters(c, rows)|
  {
    forall q | 0 <= q < |rows| ensures RowContributes(c, nodes, rows[q], EntriesOf(c.indirectRows)) {
      ResolvedSays(c, nodes, rows[q]);
    }
    ContributionsAddUp(c, nodes, rows, EntriesOf(c.indirectRows));
  }

  ghost predicate RowContributes(c: Closure, nodes: seq<Node>, row: ParameterRow, indirect: map<Key, IndirectRow>) {
    Resolved(row, nodes, indirect).Ok? && Contributes(c, row, Resolved(row, nodes, indirect).value)
  }

  lemma {:induction false} ContributionsAddUp(c: Closure, nodes: seq<Node>, rows: seq<ParameterRow>, indirect: map<Key, IndirectRow>)
    requires AllResolved(rows, nodes, indirect)
    requires forall q {:trigger RowContributes(c, nodes, rows[q], indirect)} :: 0 <= q < |rows| ==> RowContributes(c, nodes, rows[q], indirect)
    ensures var p := ParametersFor(rows, nodes, indirect);
            && AreParameters(c, rows, p.values) && AreTypesOf(c, rows, p.rootTypes)
            && p.totalEdges == TotalEdges(nodes) + |EdgeParameters(c, rows)|
    decreases |rows|
  {
    if rows != [] {
      var n := |rows| - 1;
      assert AllResolved(rows[..n], nodes, indirect);
      assert RowContributes(c, nodes, rows[n], indirect);
      forall q | 0 <= q < n ensures RowContributes(c, nodes, rows[..n][q], indirect) {
        assert rows[..n][q] == rows[q] && RowContributes(c, nodes, rows[q], indirect);
      }
      ContributionsAddUp(c, nodes, rows[..n], indirect);
      assert rows[..n] + [rows[n]] == rows;
      OneMore(c, rows[..n], rows[n], ParametersFor(rows[..n], nodes, indirect), Resolved(rows[n], nodes, indirect).value);
    }
  }

  lemma {:induction false} OneMore(c: Closure, rows: seq<ParameterRow>, row: ParameterRow, p: Parameters, r: Resolution)
    requires AreParameters(c, rows, p.values) && AreTypesOf(c, rows, p.rootTypes) && Contributes(c, row, r)
    ensures var more := AddParameter(p, row, r);
            && AreParameters(c, rows + [row], more.values) && AreTypesOf(c, rows + [row], more.rootTypes)
            && more.totalEdges - p.totalEdges == |EdgeParameters(c, rows + [row])| - |EdgeParameters(c, rows)|
  {
    OneMoreType(c, rows, row, p.rootTypes, r.roots);
    OneMoreEdge(c, rows, row);
  }

  lemma {:induction false} AllFit(c: Closure, nodes: seq<Node>)
    requires NodesFit(c, nodes)
    ensures AllResolved(c.parameterRows, nodes, EntriesOf(c.indirectRows)) <==>
            forall q :: 0 <= q < |c.parameterRows| ==> ParameterFits(c, c.parameterRows[q])
  {
    forall q | 0 <= q < |c.parameterRows|
      ensures Resolved(c.parameterRows[q], nodes, EntriesOf(c.indirectRows)).Ok? <==> ParameterFits(c, c.parameterRows[q])
    {
      ResolvedSays(c, nodes, c.parameterRows[q]);
    }
  }

  /** An indirect row is in use when some parameter has its type and path. */
  lemma {:induction false} UsedIff(c: Closure, nodes: seq<Node>, m: nat)
    requires NodesFit(c, nodes) && AllResolved(c.parameterRows, nodes, EntriesOf(c.indirectRows)) && m < |c.indirectRows|
    ensures Uses(c.parameterRows, nodes, EntriesOf(c.indirectRows), KeyOf(c.indirectRows[m])) <==>
            Consumed(c.parameterRows, KeyOf(c.indirectRows[m]))
  {
    var key := KeyOf(c.indirectRows[m]);
    if Uses(c.parameterRows, nodes, EntriesOf(c.indirectRows), key) {
      UsedIsConsumed(c.parameterRows, nodes, EntriesOf(c.indirectRows), key);
    }
    if Consumed(c.parameterRows, key) {
      var q :| 0 <= q < |c.parameterRows| && c.parameterRows[q].parameterClass != Exception &&
        (c.parameterRows[q].tableName, c.parameterRows[q].fieldPath) == key;
      ResolvedSays(c, nodes, c.parameterRows[q]);
      assert key in Resolved(c.parameterRows[q], nodes, EntriesOf(c.indirectRows)).value.consumed;
    }
  }

  // ---------------------------------------------------------------- roots

  ghost predicate Before(names: seq<string>, y: nat, name: string) {
    y <= |names| && exists x :: 0 <= x < y && names[x] == name
  }

  /** The names of later are those of more that are not yet there, in their order. */
  ghost predicate AreFresh(roots: seq<string>, more: seq<string>, later: seq<string>) {
    && DistinctRoots(later) && (forall name :: name in later <==> name in more && name !in roots)
    && forall i, j, y :: 0 <= i < j < |later| && 0 <= y < |more| && more[y] == later[j] ==> Before(more, y, later[i])
  }

  lemma {:induction false} AddRootsFresh(roots: seq<string>, more: seq<string>) returns (later: seq<string>)
    requires DistinctRoots(more)
    ensures AddRoots(roots, more) == roots + later && AreFresh(roots, more, later)
    decreases |more|
  {
    if more == [] {
      later := [];
    } else if more[0] in roots {
      later := AddRootsFresh(roots, more[1..]);
      FreshAfter(roots, more, roots, later, later);
    } else {
      var rest := AddRootsFresh(roots + [more[0]], more[1..]);
      later := [more[0]] + rest;
      FreshAfter(roots, more, roots + [more[0]], rest, later);
    }
  }

  lemma {:induction false} FreshAfter(roots: seq<string>, more: seq<string>, roots': seq<string>, rest: seq<string>, later: seq<string>)
    requires more != [] && DistinctRoots(more) && AreFresh(roots', more[1..], rest)
    requires if more[0] in roots then roots' == roots && later == rest else roots' == roots + [more[0]] && later == [more[0]] + rest
    ensures AreFresh(roots, more, later)
  {
    assert more == [more[0]] + more[1..];
    assert more[0] in roots';
    forall i, j, y | 0 <= i < j < |later| && 0 <= y < |more| && more[y] == later[j] ensures Before(more, y, later[i]) {
      var d := |later| - |rest|;
      assert later[j] == rest[j - d] && rest[j - d] in rest;
      assert y > 0 && more[1..][y - 1] == rest[j - d];
      if i >= d {
        assert Before(more[1..], y - 1, rest[i - d]);
        var x :| 0 <= x < y - 1 && more[1..][x] == rest[i - d];
        assert more[x + 1] == later[i];
      }
    }
  }

  /** The requested roots come first, then the parameters' types; every type, in order, if there is neither. */
  ghost predicate AreRoots(c: Closure, nodes: seq<Node>, requested: seq<string>, roots: seq<string>) {
    if requested == [] && forall name :: !Mentioned(c, c.parameterRows, name) then
      |roots| == |nodes| && forall i :: 0 <= i < |roots| ==> roots[i] == nodes[i].name
    else
      && requested <= roots
      && var later := roots[|requested|..];
        && (forall name :: name in later <==> Mentioned(c, c.parameterRows, name) && name !in requested)
        && DistinctRoots(later) && FirstMentioned(c, c.parameterRows, later)
  }

  lemma {:induction false} ChosenAreRoots(c: Closure, nodes: seq<Node>, requested: seq<string>, types: seq<string>)
    requires AreTypesOf(c, c.parameterRows, types)
    ensures AreRoots(c, nodes, requested, ChosenRoots(nodes, requested, types))
  {
    var rows := c.parameterRows;
    var later := AddRootsFresh(requested, types);
    assert (requested + later)[|requested|..] == later;
    FreshInOrder(c, rows, requested, types, later);
    if requested + later == [] {
      assert forall name :: name in types <==> Mentioned(c, rows, name);
      assert forall name :: name !in later;
    } else if requested == [] {
      assert later[0] in later;
    }
  }

  lemma {:induction false} FreshInOrder(c: Closure, rows: seq<ParameterRow>, roots: seq<string>, types: seq<string>, later: seq<string>)
    requires FirstMentioned(c, rows, types) && AreFresh(roots, types, later)
    ensures FirstMentioned(c, rows, later)
  {
    forall i, j, q | 0 <= i < j < |later| && 0 <= q < |rows| && RootOf(c, rows[q], later[j]) ensures Mentioned(c, rows[..q], later[i]) {
      assert later[j] in later;
      var y :| 0 <= y < |types| && types[y] == later[j];
      assert Before(types, y, later[i]);
      var x :| 0 <= x < y && types[x] == later[i];
    }
  }

  /** A root: requested, the type of a parameter, or any type if there is neither. */
  ghost predicate IsRoot(c: Closure, requested: seq<string>, name: string) {
    || name in requested || Mentioned(c, c.parameterRows, name)
    || (requested == [] && (forall other :: !Mentioned(c, c.parameterRows, other)) && Declared(c, name))
  }

  lemma {:induction false} RootMembers(c: Closure, nodes: seq<Node>, requested: seq<string>, roots: seq<string>, name: string)
    requires NodesFit(c, nodes) && AreRoots(c, nodes, requested, roots)
    ensures name in roots <==> IsRoot(c, requested, name)
  {
    NodeIsDeclared(c, nodes, name);
    if requested == [] && forall other :: !Mentioned(c, c.parameterRows, other) {
      if name in IndexByName(nodes) {
        assert roots[IndexByName(nodes)[name]] == name;
      }
    } else {
      assert roots == requested + roots[|requested|..];
    }
  }
}
