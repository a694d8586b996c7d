/**
 * The size computed before a request is built is the size of the request. The measuring pass
 * walks the parameters in metadata order and the encoder lists outputs, imports, tables and
 * xRFC values one after the other, so the two agree as multisets of field lengths.
 */
module RequestSize {
  import opened Text
  import opened Wrappers
  import opened ClassicResult
  import opened Invocation
  import S = Scalars

  // ---------------------------------------------------------------- totals

  lemma {:induction false} TotalSplits(a: seq<nat>, b: seq<nat>)
    ensures Total(a + b) == Total(a) + Total(b)
    decreases |b|
  {
    if b == [] {
      assert a + b == a;
    } else {
      assert (a + b)[..|a + b| - 1] == a + b[..|b| - 1];
      TotalSplits(a, b[..|b| - 1]);
    }
  }

  lemma {:induction false} TotalOfMultiset(a: seq<nat>, b: seq<nat>)
    requires multiset(a) == multiset(b)
    ensures |a| == |b| && Total(a) == Total(b)
    decreases |a|
  {
    assert |multiset(a)| == |a| && |multiset(b)| == |b|;
    if a != [] {
      var x := a[|a| - 1];
      assert a == a[..|a| - 1] + [x];
      assert x in multiset(a) && x in multiset(b) && x in b;
      var i :| 0 <= i < |b| && b[i] == x;
      var rest := b[..i] + b[i + 1..];
      assert b == b[..i] + [x] + b[i + 1..];
      assert multiset(a[..|a| - 1]) == multiset(a) - multiset{x} == multiset(b) - multiset{x} == multiset(rest);
      TotalOfMultiset(a[..|a| - 1], rest);
      TotalSplits(b[..i], [x]);
      TotalSplits(b[..i] + [x], b[i + 1..]);
      TotalSplits(b[..i], b[i + 1..]);
      assert Total([x]) == Total([]) + RecordLength(x) by {
        assert [x][..0] == [];
      }
    }
  }

  // ---------------------------------------------------------------- what the plan remembers

  /** No two parameters that send an input share a name. */
  ghost predicate InputsDistinct(ps: seq<Parameter>, c: Call) {
    forall i, j :: 0 <= i < j < |ps| && SendsInput(ps[i], c) && SendsInput(ps[j], c) ==> ps[i].name != ps[j].name
  }

  /** The plan holds this parameter's own measurements. */
  predicate Remembers(plan: Plan, p: Parameter, c: Call) {
    SendsInput(p, c) ==>
      && InputLengths(p, c).Ok?
      && var v := ActiveInput(p, c).value;
         if p.usage == Tables then
           && p.name in plan.rowCounts && plan.rowCounts[p.name] == |v.rows|
           && p.name in plan.rowLengths && plan.rowLengths[p.name] == RowLength(p.shape).value
         else if IsDeep(p, c) then p.name in plan.xrfcEncodings && plan.xrfcEncodings[p.name] == v.bytes
         else
           && p.name !in plan.xrfcEncodings
           && p.name in plan.scalarLengths && plan.scalarLengths[p.name] == ValueLength(p.shape, v).value
           && (p.shape.Decimal? ==> p.name in plan.scalarEncodings && plan.scalarEncodings[p.name] == v.bytes)
  }

  /** The plan has entries only under names that send an input. */
  ghost predicate OnlyInputs(plan: Plan, ps: seq<Parameter>, c: Call) {
    forall name :: name in plan.xrfcEncodings ==> exists i :: 0 <= i < |ps| && SendsInput(ps[i], c) && ps[i].name == name
  }

  lemma {:induction false} PlanHasOnlyInputs(ps: seq<Parameter>, c: Call)
    requires PlanOf(ps, c).Ok?
    ensures OnlyInputs(PlanOf(ps, c).value, ps, c)
  {
    if ps != [] {
      var n := |ps| - 1;
      PlanHasOnlyInputs(ps[..n], c);
      var before := PlanOf(ps[..n], c).value;
      var plan := PlanOf(ps, c).value;
      forall name | name in plan.xrfcEncodings
        ensures exists i :: 0 <= i < |ps| && SendsInput(ps[i], c) && ps[i].name == name
      {
        if name in before.xrfcEncodings {
          var i :| 0 <= i < |ps[..n]| && SendsInput(ps[..n][i], c) && ps[..n][i].name == name;
          assert SendsInput(ps[i], c);
        } else {
          assert SendsInput(ps[n], c) && ps[n].name == name;
        }
      }
    }
  }

  lemma {:induction false} RecordingRemembers(plan: Plan, p: Parameter, c: Call)
    requires Measured(plan, p, c).Ok? && (SendsInput(p, c) ==> p.name !in plan.xrfcEncodings)
    ensures Remembers(Measured(plan, p, c).value, p, c)
  {}

  lemma {:induction false} RecordingKeepsOthers(plan: Plan, p: Parameter, q: Parameter, c: Call)
    requires Measured(plan, p, c).Ok? && Remembers(plan, q, c)
    requires SendsInput(p, c) && SendsInput(q, c) ==> p.name != q.name
    ensures Remembers(Measured(plan, p, c).value, q, c)
  {
    if SendsInput(p, c) && SendsInput(q, c) {
      assert SameEntries(plan, Recorded(plan, p, c), q.name);
    }
  }

  /** Both plans hold the same under a name. */
  predicate SameEntries(a: Plan, b: Plan, name: Name) {
    && SameEntry(a.scalarLengths, b.scalarLengths, name) && SameEntry(a.scalarEncodings, b.scalarEncodings, name)
    && SameEntry(a.rowCounts, b.rowCounts, name) && SameEntry(a.rowLengths, b.rowLengths, name)
    && SameEntry(a.xrfcEncodings, b.xrfcEncodings, name)
  }

  predicate SameEntry<T(==)>(a: map<Name, T>, b: map<Name, T>, name: Name) {
    (name in a <==> name in b) && (name in a ==> a[name] == b[name])
  }

  lemma {:induction false} PlanRemembersAll(ps: seq<Parameter>, c: Call)
    requires PlanOf(ps, c).Ok? && InputsDistinct(ps, c)
    ensures forall i :: 0 <= i < |ps| ==> Remembers(PlanOf(ps, c).value, ps[i], c)
  {
    if ps != [] {
      var n := |ps| - 1;
      var before := PlanOf(ps[..n], c).value;
      PlanRemembersAll(ps[..n], c);
      PlanHasOnlyInputs(ps[..n], c);
      RecordingRemembers(before, ps[n], c);
      forall i | 0 <= i < n ensures Remembers(PlanOf(ps, c).value, ps[i], c) {
        assert ps[..n][i] == ps[i];
        RecordingKeepsOthers(before, ps[n], ps[i], c);
      }
    }
  }

  // ---------------------------------------------------------------- no length changes

  /** Rows of a fixed shape all have the width the initial value has. */
  lemma {:induction false} RowWidthIsFixed(shape: Shape, v: Value)
    requires RowLength(shape).Ok? && EncodeValue(shape, v).Ok?
    ensures |EncodeValue(shape, v).value| == RowLength(shape).value
  {
    if shape.Fixed? {
      FixedKindWidth(shape.kind, v.value);
    }
  }

  lemma {:induction false} FixedKindWidth(k: S.Kind, v: S.Value)
    requires !k.AbapString? && !k.XString? && S.EncodeScalar(k, v).Ok? && S.EncodedLength(k, InitialFixed(k)).Ok?
    ensures |S.EncodeScalar(k, v).value| == S.EncodedLength(k, InitialFixed(k)).value
  {
    S.LengthIsExact(k, v);
  }

  lemma {:induction false} RowsKeepTheirWidth(shape: Shape, rows: seq<Value>, count: nat)
    requires count <= |rows| && RowLength(shape).Ok?
    ensures EncodeRows(shape, rows, count, RowLength(shape).value) != Err(LengthChanged)
    ensures
      EncodeRows(shape, rows, count, RowLength(shape).value).Ok? ==>
        var encoded := EncodeRows(shape, rows, count, RowLength(shape).value).value;
        |encoded| == count && forall i :: 0 <= i < count ==> |encoded[i]| == RowLength(shape).value
  {
    if count > 0 {
      RowsKeepTheirWidth(shape, rows, count - 1);
      if EncodeValue(shape, rows[count - 1]).Ok? {
        RowWidthIsFixed(shape, rows[count - 1]);
      }
    }
  }

  lemma {:induction false} ValueLengthIsExact(shape: Shape, v: Value)
    requires EncodeValue(shape, v).Ok?
    ensures ValueLength(shape, v) == Ok(|EncodeValue(shape, v).value|)
  {
    if shape.Fixed? {
      S.LengthIsExact(shape.kind, v.value);
    }
  }

  lemma {:induction false} ImportKeepsItsLength(p: Parameter, c: Call, plan: Plan)
    requires SendsInput(p, c) && p.usage != Tables && !IsDeep(p, c) && Remembers(plan, p, c)
    ensures ScalarImport(p, ActiveInput(p, c).value, plan) != Err(LengthChanged)
    ensures ScalarImport(p, ActiveInput(p, c).value, plan).Ok? ==>
              |ScalarImport(p, ActiveInput(p, c).value, plan).value| == ValueLength(p.shape, ActiveInput(p, c).value).value
  {
    var v := ActiveInput(p, c).value;
    if !p.shape.Decimal? && EncodeValue(p.shape, v).Ok? {
      ValueLengthIsExact(p.shape, v);
    }
  }

  // ---------------------------------------------------------------- the multiset of lengths

  function OutputSizes(names: seq<Name>): seq<nat> {
    if names == [] then [] else OutputSizes(names[..|names| - 1]) + [2 * |names[|names| - 1]|]
  }

  function ImportSizes(imports: seq<Import>): seq<nat> {
    if imports == [] then []
    else ImportSizes(imports[..|imports| - 1]) + [2 * |imports[|imports| - 1].name|, |imports[|imports| - 1].value|]
  }

  function RowSizes(rows: seq<Bytes>): (r: seq<nat>)
    ensures |r| == |rows| && forall i :: 0 <= i < |r| ==> r[i] == |rows[i]|
  {
    seq(|rows|, i requires 0 <= i < |rows| => |rows[i]|)
  }

  function TableSizes(tables: seq<TableInput>): seq<nat> {
    if tables == [] then []
    else TableSizes(tables[..|tables| - 1]) + ([2 * |tables[|tables| - 1].name|, 8] + RowSizes(tables[|tables| - 1].rows))
  }

  function XrfcSizes(xrfc: seq<Import>): seq<nat> {
    if xrfc == [] then []
    else XrfcSizes(xrfc[..|xrfc| - 1]) + ([0] + Chunks(|xrfc[|xrfc| - 1].value|) + [0])
  }

  function Sizes(request: Request): multiset<nat> {
    multiset(OutputSizes(request.outputs)) + multiset(ImportSizes(request.imports)) + multiset(TableSizes(request.tables))
      + multiset(XrfcSizes(request.xrfc))
  }

  /** What one parameter contributes, as measured. */
  function Contribution(p: Parameter, c: Call): multiset<nat>
    requires OutputLengths(p, c).Ok? && InputLengths(p, c).Ok?
  {
    multiset(OutputLengths(p, c).value) + multiset(InputLengths(p, c).value)
  }

  lemma {:induction false} OutputAdds(request: Request, name: Name)
    ensures Sizes(request.(outputs := request.outputs + [name])) == Sizes(request) + multiset([2 * |name|])
  {
    assert (request.outputs + [name])[..|request.outputs|] == request.outputs;
  }

  lemma {:induction false} ImportAdds(request: Request, i: Import)
    ensures Sizes(request.(imports := request.imports + [i])) == Sizes(request) + multiset([2 * |i.name|, |i.value|])
  {
    assert (request.imports + [i])[..|request.imports|] == request.imports;
  }

  lemma {:induction false} TableAdds(request: Request, t: TableInput)
    ensures Sizes(request.(tables := request.tables + [t])) == Sizes(request) + multiset([2 * |t.name|, 8] + RowSizes(t.rows))
  {
    assert (request.tables + [t])[..|request.tables|] == request.tables;
  }

  lemma {:induction false} XrfcAdds(request: Request, i: Import)
    ensures Sizes(request.(xrfc := request.xrfc + [i])) == Sizes(request) + multiset([0] + Chunks(|i.value|) + [0])
  {
    assert (request.xrfc + [i])[..|request.xrfc|] == request.xrfc;
  }

  lemma {:induction false} InputAdds(request: Request, p: Parameter, c: Call, plan: Plan)
    requires SendsInput(p, c) && Remembers(plan, p, c)
    ensures AddedInput(request, p, c, plan) != Err(LengthChanged)
    ensures AddedInput(request, p, c, plan).Ok? ==>
              Sizes(AddedInput(request, p, c, plan).value) == Sizes(request) + multiset(InputLengths(p, c).value)
  {
    var v := ActiveInput(p, c).value;
    if p.usage == Tables {
      TableInputAdds(request, p, c, plan, v);
    } else if IsDeep(p, c) {
      XrfcAdds(request, Import(p.name, v.bytes));
    } else {
      ImportKeepsItsLength(p, c, plan);
      if ScalarImport(p, v, plan).Ok? {
        ImportAdds(request, Import(p.name, ScalarImport(p, v, plan).value));
      }
    }
  }

  lemma {:induction false} TableInputAdds(request: Request, p: Parameter, c: Call, plan: Plan, v: Value)
    requires SendsInput(p, c) && Remembers(plan, p, c) && p.usage == Tables && v == ActiveInput(p, c).value
    ensures AddedInput(request, p, c, plan) != Err(LengthChanged)
    ensures AddedInput(request, p, c, plan).Ok? ==>
              Sizes(AddedInput(request, p, c, plan).value) == Sizes(request) + multiset(InputLengths(p, c).value)
  {
    TableInputIs(request, p, c, plan, v);
    var width := RowLength(p.shape).value;
    RowsKeepTheirWidth(p.shape, v.rows, |v.rows|);
    var rows := EncodeRows(p.shape, v.rows, |v.rows|, width);
    if rows.Ok? {
      TableAdds(request, TableInput(p.name, width, rows.value));
      assert RowSizes(rows.value) == S.Repeat(width, |v.rows|);
    }
  }

  /** With the table's own count and width in the plan. */
  lemma {:induction false} TableInputIs(request: Request, p: Parameter, c: Call, plan: Plan, v: Value)
    requires SendsInput(p, c) && Remembers(plan, p, c) && p.usage == Tables && v == ActiveInput(p, c).value
    ensures v.Rows? && RowLength(p.shape).Ok?
    ensures InputLengths(p, c) == Ok([2 * |p.name|, 8] + S.Repeat(RowLength(p.shape).value, |v.rows|))
    ensures
      var rows := EncodeRows(p.shape, v.rows, |v.rows|, RowLength(p.shape).value);
      AddedInput(request, p, c, plan) ==
        if rows.Err? then Err(rows.error)
        else Ok(request.(tables := request.tables + [TableInput(p.name, RowLength(p.shape).value, rows.value)]))
  {}

  function Asked(request: Request, p: Parameter, c: Call): Request {
    if RequestsOutput(p, c) then request.(outputs := request.outputs + [p.name]) else request
  }

  lemma {:induction false} AskedAdds(request: Request, p: Parameter, c: Call)
    requires OutputLengths(p, c).Ok?
    ensures Sizes(Asked(request, p, c)) == Sizes(request) + multiset(OutputLengths(p, c).value)
  {
    if RequestsOutput(p, c) {
      OutputAdds(request, p.name);
    }
  }

  lemma {:induction false} AddedAfterAsked(request: Request, p: Parameter, c: Call, plan: Plan)
    requires Remembers(plan, p, c) && InputLengths(p, c).Ok?
    ensures Added(request, p, c, plan) != Err(LengthChanged)
    ensures Added(request, p, c, plan).Ok? ==>
              Sizes(Added(request, p, c, plan).value) == Sizes(Asked(request, p, c)) + multiset(InputLengths(p, c).value)
  {
    var asked := Asked(request, p, c);
    if SendsInput(p, c) {
      InputAdds(asked, p, c, plan);
      assert Added(request, p, c, plan) == AddedInput(asked, p, c, plan);
    } else {
      assert Added(request, p, c, plan) == Ok(asked) && InputLengths(p, c).value == [];
    }
  }

  lemma {:induction false} ParameterAdds(request: Request, p: Parameter, c: Call, plan: Plan)
    requires Remembers(plan, p, c) && OutputLengths(p, c).Ok? && InputLengths(p, c).Ok?
    ensures Added(request, p, c, plan) != Err(LengthChanged)
    ensures Added(request, p, c, plan).Ok? ==> Sizes(Added(request, p, c, plan).value) == Sizes(request) + Contribution(p, c)
  {
    AskedAdds(request, p, c);
    AddedAfterAsked(request, p, c, plan);
  }

  /** A prefix of the parameters, built with the plan of all of them, has the lengths measured for the prefix. */
  lemma {:induction false} BuiltHasMeasuredSizes(ps: seq<Parameter>, c: Call, plan: Plan)
    requires PlanOf(ps, c).Ok? && forall i :: 0 <= i < |ps| ==> Remembers(plan, ps[i], c)
    ensures Built(ps, c, plan) != Err(LengthChanged)
    ensures Built(ps, c, plan).Ok? ==> Sizes(Built(ps, c, plan).value) == multiset(PlanOf(ps, c).value.lengths)
  {
    if ps != [] {
      var n := |ps| - 1;
      var p := ps[n];
      var before := PlanOf(ps[..n], c).value;
      forall i | 0 <= i < n ensures Remembers(plan, ps[..n][i], c) {
        assert ps[..n][i] == ps[i];
      }
      BuiltHasMeasuredSizes(ps[..n], c, plan);
      if Built(ps[..n], c, plan).Ok? {
        ParameterAdds(Built(ps[..n], c, plan).value, p, c, plan);
        assert PlanOf(ps, c).value.lengths == before.lengths + OutputLengths(p, c).value + InputLengths(p, c).value;
      }
    }
  }

  // ---------------------------------------------------------------- from sizes to fields

  lemma {:induction false} FieldLengthsSplit(a: seq<Field>, b: seq<Field>)
    ensures FieldLengths(a + b) == FieldLengths(a) + FieldLengths(b)
  {}

  lemma {:induction false} OutputFieldLengths(names: seq<Name>)
    ensures FieldLengths(OutputFields(names)) == OutputSizes(names)
  {
    if names != [] {
      OutputFieldLengths(names[..|names| - 1]);
      FieldLengthsSplit(OutputFields(names[..|names| - 1]), [Utf16Field(REQUESTED_OUTPUT, names[|names| - 1])]);
    }
  }

  lemma {:induction false} ImportFieldLengths(imports: seq<Import>)
    ensures FieldLengths(ImportFields(imports)) == ImportSizes(imports)
  {
    if imports != [] {
      var last := imports[|imports| - 1];
      ImportFieldLengths(imports[..|imports| - 1]);
      FieldLengthsSplit(ImportFields(imports[..|imports| - 1]), [Utf16Field(PARAMETER_NAME, last.name), Field(PARAMETER_VALUE, last.value)]);
    }
  }

  lemma {:induction false} TableFieldLengths(tables: seq<TableInput>)
    requires forall i :: 0 <= i < |tables| ==> TableFits(tables[i])
    ensures FieldLengths(TableFields(tables)) == TableSizes(tables)
  {
    if tables != [] {
      var last := tables[|tables| - 1];
      assert TableFits(last);
      TableFieldLengths(tables[..|tables| - 1]);
      FieldLengthsSplit(TableFields(tables[..|tables| - 1]), OneTable(last));
      assert FieldLengths(OneTable(last)) == [2 * |last.name|, 8] + RowSizes(last.rows);
    }
  }

  /** Chunking the bytes gives chunks of the lengths that were counted. */
  lemma {:induction false} DataFieldLengths(b: Bytes)
    ensures FieldLengths(DataFields(b)) == Chunks(|b|)
    decreases |b|
  {
    if |b| > XRFC_CHUNK {
      DataFieldLengths(b[XRFC_CHUNK..]);
      FieldLengthsSplit([Field(XRFC_DATA, b[..XRFC_CHUNK])], DataFields(b[XRFC_CHUNK..]));
    }
  }

  lemma {:induction false} XrfcFieldLengths(xrfc: seq<Import>)
    ensures FieldLengths(XrfcFields(xrfc)) == XrfcSizes(xrfc)
  {
    if xrfc != [] {
      var last := xrfc[|xrfc| - 1].value;
      var boundary := [Field(XRFC_PARAMETER, [])];
      XrfcFieldLengths(xrfc[..|xrfc| - 1]);
      DataFieldLengths(last);
      FieldLengthsSplit(boundary, DataFields(last));
      FieldLengthsSplit(boundary + DataFields(last), boundary);
      FieldLengthsSplit(XrfcFields(xrfc[..|xrfc| - 1]), boundary + DataFields(last) + boundary);
    }
  }

  lemma {:induction false} RequestFieldLengths(functionName: Name, request: Request)
    requires Encodable(functionName, request)
    ensures multiset(FieldLengths(RequestFields(functionName, request))) == multiset([6, 2 * |functionName|, 0]) + Sizes(request) + multiset([0])
  {
    var head := [Utf16Field(KERNEL, KERNEL_RELEASE), Utf16Field(FUNCTION, functionName), Field(CALL_CONTEXT, [])];
    assert FieldLengths(head) == [6, 2 * |functionName|, 0] && FieldLengths([Field(END, [])]) == [0];
    OutputFieldLengths(request.outputs);
    ImportFieldLengths(request.imports);
    TableFieldLengths(request.tables);
    XrfcFieldLengths(request.xrfc);
    SixParts(head, OutputFields(request.outputs), ImportFields(request.imports), TableFields(request.tables),
             XrfcFields(request.xrfc), [Field(END, [])]);
  }

  lemma {:induction false} SixParts(a: seq<Field>, b: seq<Field>, c: seq<Field>, d: seq<Field>, e: seq<Field>, f: seq<Field>)
    ensures multiset(FieldLengths(a + b + c + d + e + f)) ==
            multiset(FieldLengths(a)) + (multiset(FieldLengths(b)) + multiset(FieldLengths(c)) + multiset(FieldLengths(d))
              + multiset(FieldLengths(e))) + multiset(FieldLengths(f))
  {
    FieldLengthsSplit(a, b);
    FieldLengthsSplit(a + b, c);
    FieldLengthsSplit(a + b + c, d);
    FieldLengthsSplit(a + b + c + d, e);
    FieldLengthsSplit(a + b + c + d + e, f);
  }

  // ---------------------------------------------------------------- repeated names

  /** The names of the parameters that send an input, in order. */
  function SentNames(ps: seq<Parameter>, c: Call): seq<Name> {
    if ps == [] then []
    else SentNames(ps[..|ps| - 1], c) + if SendsInput(ps[|ps| - 1], c) then [ps[|ps| - 1].name] else []
  }

  function NameBag(request: Request): multiset<Name> {
    multiset(ImportNames(request.imports)) + multiset(TableNames(request.tables)) + multiset(ImportNames(request.xrfc))
  }

  lemma {:induction false} InputAddsItsName(request: Request, p: Parameter, c: Call, plan: Plan)
    requires SendsInput(p, c) && AddedInput(request, p, c, plan).Ok?
    ensures NameBag(AddedInput(request, p, c, plan).value) == NameBag(request) + multiset{p.name}
  {
    var after := AddedInput(request, p, c, plan).value;
    if p.usage == Tables {
      assert TableNames(after.tables) == TableNames(request.tables) + [p.name];
    } else if p.name in plan.xrfcEncodings {
      assert ImportNames(after.xrfc) == ImportNames(request.xrfc) + [p.name];
    } else {
      assert ImportNames(after.imports) == ImportNames(request.imports) + [p.name];
    }
  }

  lemma {:induction false} BuiltHoldsSentNames(ps: seq<Parameter>, c: Call, plan: Plan)
    requires Built(ps, c, plan).Ok?
    ensures NameBag(Built(ps, c, plan).value) == multiset(SentNames(ps, c))
  {
    if ps != [] {
      var n := |ps| - 1;
      BuiltHoldsSentNames(ps[..n], c, plan);
      var request := Built(ps[..n], c, plan).value;
      var asked := if RequestsOutput(ps[n], c) then request.(outputs := request.outputs + [ps[n].name]) else request;
      if SendsInput(ps[n], c) {
        InputAddsItsName(asked, ps[n], c, plan);
      }
    }
  }

  lemma {:induction false} DistinctMeansOnce<T>(s: seq<T>, x: T)
    ensures Distinct(s) ==> multiset(s)[x] <= 1
  {
    if s != [] {
      var front := s[..|s| - 1];
      DistinctMeansOnce(front, x);
      assert s == front + [s[|s| - 1]];
      if Distinct(s) && x == s[|s| - 1] {
        assert x !in front;
      }
    }
  }

  lemma {:induction false} SentIsListed(ps: seq<Parameter>, c: Call, i: nat)
    requires i < |ps| && SendsInput(ps[i], c)
    ensures multiset(SentNames(ps, c))[ps[i].name] >= 1
  {
    var n := |ps| - 1;
    if i < n {
      SentIsListed(ps[..n], c, i);
    }
  }

  lemma {:induction false} SentOnceMeansDistinct(ps: seq<Parameter>, c: Call)
    requires forall x :: multiset(SentNames(ps, c))[x] <= 1
    ensures InputsDistinct(ps, c)
  {
    if ps != [] {
      var n := |ps| - 1;
      var front := ps[..n];
      forall x ensures multiset(SentNames(front, c))[x] <= 1 {
        assert multiset(SentNames(ps, c))[x] >= multiset(SentNames(front, c))[x];
      }
      SentOnceMeansDistinct(front, c);
      forall i, j | 0 <= i < j < |ps| && SendsInput(ps[i], c) && SendsInput(ps[j], c) ensures ps[i].name != ps[j].name {
        if j == n {
          assert front[i] == ps[i];
          SentIsListed(front, c, i);
          assert multiset(SentNames(ps, c))[ps[n].name] == multiset(SentNames(front, c))[ps[n].name] + 1;
        } else {
          assert front[i] == ps[i] && front[j] == ps[j];
        }
      }
    }
  }

  /** The encoder's check for repeated names is a check of the parameters that send an input. */
  lemma {:induction false} EncodableMeansInputsDistinct(functionName: Name, ps: seq<Parameter>, c: Call, plan: Plan)
    requires Built(ps, c, plan).Ok? && Encodable(functionName, Built(ps, c, plan).value)
    ensures InputsDistinct(ps, c)
  {
    var request := Built(ps, c, plan).value;
    BuiltHoldsSentNames(ps, c, plan);
    assert multiset(InputNames(request)) == NameBag(request);
    forall x ensures multiset(SentNames(ps, c))[x] <= 1 {
      DistinctMeansOnce(InputNames(request), x);
    }
    SentOnceMeansDistinct(ps, c);
  }

  // ---------------------------------------------------------------- the theorems

  lemma {:induction false} BuiltSizesAreMeasured(functionName: Name, ps: seq<Parameter>, c: Call, plan: Plan)
    requires PlanOf(ps, c) == Ok(plan) && Built(ps, c, plan).Ok? && Encodable(functionName, Built(ps, c, plan).value)
    ensures
      var fields := RequestFields(functionName, Built(ps, c, plan).value);
      multiset(FieldLengths(fields)) == multiset(RequestLengths(functionName, plan))
  {
    EncodableMeansInputsDistinct(functionName, ps, c, plan);
    PlanRemembersAll(ps, c);
    BuiltHasMeasuredSizes(ps, c, plan);
    RequestFieldLengths(functionName, Built(ps, c, plan).value);
  }

  lemma {:induction false} FitsIsOfTheMultiset(a: seq<nat>, b: seq<nat>, maximum: Option<nat>)
    requires multiset(a) == multiset(b) && Fits(a, maximum)
    ensures Fits(b, maximum)
  {
    TotalOfMultiset(a, b);
    forall i | 0 <= i < |b| ensures b[i] <= MAX_FIELD_LENGTH {
      assert b[i] in multiset(b) && b[i] in multiset(a) && b[i] in a;
    }
  }

  /**
   * Whenever a request is built, the measured lengths are, as a multiset, the lengths of its
   * fields: its total is the measured total, and the limits hold of the request itself.
   */
  lemma {:induction false} SizeIsExact(functionName: Name, ps: seq<Parameter>, c: Call, maximum: Option<nat>)
    requires BuildRequest(functionName, ps, c, maximum).Ok?
    ensures
      var plan := Preflight(functionName, ps, c, maximum).value;
      var fields := BuildRequest(functionName, ps, c, maximum).value;
      && multiset(FieldLengths(fields)) == multiset(RequestLengths(functionName, plan))
      && Total(FieldLengths(fields)) == Total(RequestLengths(functionName, plan))
      && Fits(FieldLengths(fields), maximum)
  {
    var plan := Preflight(functionName, ps, c, maximum).value;
    var fields := BuildRequest(functionName, ps, c, maximum).value;
    BuiltSizesAreMeasured(functionName, ps, c, plan);
    TotalOfMultiset(FieldLengths(fields), RequestLengths(functionName, plan));
    FitsIsOfTheMultiset(RequestLengths(functionName, plan), FieldLengths(fields), maximum);
  }

  /** A configured maximum lets exactly those requests through whose true size is within it. */
  lemma {:induction false} MaximumDecidesOnTrueSize(functionName: Name, ps: seq<Parameter>, c: Call, maximum: nat)
    requires BuildRequest(functionName, ps, c, None).Ok?
    ensures
      var fields := BuildRequest(functionName, ps, c, None).value;
      BuildRequest(functionName, ps, c, Some(maximum)) ==
        if FIXED_APPLICATION_BYTES + Total(FieldLengths(fields)) <= maximum then Ok(fields) else Err(TooLarge)
  {
    SizeIsExact(functionName, ps, c, None);
  }

  lemma {:induction false} MeasuringNeverChangesLength(ps: seq<Parameter>, c: Call)
    ensures PlanOf(ps, c) != Err(LengthChanged)
  {
    if ps != [] {
      MeasuringNeverChangesLength(ps[..|ps| - 1], c);
    }
  }

  /** The checks for a changed length fire only when two parameters that send an input share a name. */
  lemma {:induction false} LengthChangesOnlyOnRepeatedNames(functionName: Name, ps: seq<Parameter>, c: Call,
      maximum: Option<nat>)
    requires BuildRequest(functionName, ps, c, maximum) == Err(LengthChanged)
    ensures !InputsDistinct(ps, c)
  {
    MeasuringNeverChangesLength(ps, c);
    if InputsDistinct(ps, c) {
      PlanRemembersAll(ps, c);
      BuiltHasMeasuredSizes(ps, c, Preflight(functionName, ps, c, maximum).value);
    }
  }

  /** No request is ever built with a repeated name, and with distinct names no length ever changes. */
  lemma {:induction false} BuiltOnlyWithDistinctNames(functionName: Name, ps: seq<Parameter>, c: Call, maximum: Option<nat>)
    ensures BuildRequest(functionName, ps, c, maximum).Ok? ==> InputsDistinct(ps, c)
    ensures InputsDistinct(ps, c) ==> BuildRequest(functionName, ps, c, maximum) != Err(LengthChanged)
  {
    var plan := Preflight(functionName, ps, c, maximum);
    if BuildRequest(functionName, ps, c, maximum).Ok? {
      EncodableMeansInputsDistinct(functionName, ps, c, plan.value);
    }
    if BuildRequest(functionName, ps, c, maximum) == Err(LengthChanged) {
      LengthChangesOnlyOnRepeatedNames(functionName, ps, c, maximum);
    }
  }
}
