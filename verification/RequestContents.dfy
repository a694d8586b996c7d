/**
 * What a built request holds, said of the metadata and the caller's input: which parameter each
 * field stands for, and every byte of it.
 */
module RequestContents {
  import opened Text
  import opened Wrappers
  import opened ClassicResult
  import opened Invocation
  import opened RequestSize
  import opened ReplyContents
  import S = Scalars

  // ---------------------------------------------------------------- which parameters

  /** Inputs go out when given, demanded or activated, and not deactivated. */
  predicate IsSent(p: Parameter, c: Call) {
    && p.usage in {Importing, Changing, Tables} && p.name !in c.deactivated
    && (p.name in c.input || !p.optional || p.name in c.activated)
  }

  /** Outputs are asked for unless deactivated; a changing parameter only when it is sent. */
  predicate IsWanted(p: Parameter, c: Call) {
    && p.usage in {Exporting, Changing, Tables} && p.name !in c.deactivated
    && (p.usage == Changing ==> p.name in c.input || !p.optional || p.name in c.activated)
  }

  /** Zeros for dates, times and numbers, nothing for text and bytes. */
  predicate IsInitial(shape: Shape, bytes: Bytes, v: Value) {
    if !shape.Fixed? then v == Encoded(bytes)
    else
      v.Plain? && v.value ==
        match shape.kind
        case Char(_) | Numc(_) | AbapString => S.TextValue([])
        case Raw(_) | XString => S.BytesValue([])
        case Date => S.TextValue([0x30, 0x30, 0x30, 0x30, 0x30, 0x30, 0x30, 0x30])
        case Time => S.TextValue([0x30, 0x30, 0x30, 0x30, 0x30, 0x30])
        case Int1 | Int2 | Int4 | Int8(_) => S.IntegerValue(0)
  }

  /** The caller's value, or else no rows or the initial value. */
  predicate IsGiven(p: Parameter, c: Call, v: Value) {
    if p.name in c.input then v == c.input[p.name]
    else if p.usage == Tables then v == Rows([])
    else IsInitial(p.shape, p.initialBytes, v)
  }

  datatype Way = AsOutput | AsImport | AsTable | AsXrfc

  predicate Goes(p: Parameter, c: Call, way: Way) {
    match way
    case AsOutput => IsWanted(p, c)
    case AsImport => IsSent(p, c) && p.usage != Tables && !(p.name in c.recursive || p.shape.Deep?)
    case AsTable => IsSent(p, c) && p.usage == Tables
    case AsXrfc => IsSent(p, c) && p.usage != Tables && (p.name in c.recursive || p.shape.Deep?)
  }

  /** The parameters that go one way, in metadata order. */
  function Going(ps: seq<Parameter>, c: Call, way: Way): seq<Parameter> {
    if ps == [] then []
    else Going(ps[..|ps| - 1], c, way) + if Goes(ps[|ps| - 1], c, way) then [ps[|ps| - 1]] else []
  }

  // ---------------------------------------------------------------- what is sent for one

  ghost predicate SentAsImport(p: Parameter, c: Call, i: Import) {
    i.name == p.name && exists v :: IsGiven(p, c, v) && EncodeValue(p.shape, v) == Ok(i.value)
  }

  ghost predicate SentAsTable(p: Parameter, c: Call, t: TableInput) {
    && t.name == p.name && RowLength(p.shape) == Ok(t.rowLength)
    && exists v :: IsGiven(p, c, v) && v.Rows? && RowsEncoded(p.shape, v.rows, t.rows)
  }

  /** One row for each row given, in order. */
  predicate RowsEncoded(shape: Shape, rows: seq<Value>, encoded: seq<Bytes>) {
    |encoded| == |rows| && forall k :: 0 <= k < |rows| ==> EncodeValue(shape, rows[k]) == Ok(encoded[k])
  }

  ghost predicate SentAsXrfc(p: Parameter, c: Call, i: Import) {
    i.name == p.name && IsGiven(p, c, Encoded(i.value))
  }

  /** The lists hold one entry for each parameter that goes that way, in metadata order. */
  ghost predicate ListsAre(request: Request, ps: seq<Parameter>, c: Call) {
    var outputs, imports, tables, xrfc := Going(ps, c, AsOutput), Going(ps, c, AsImport), Going(ps, c, AsTable), Going(ps, c, AsXrfc);
    && |request.outputs| == |outputs| && (forall m :: 0 <= m < |outputs| ==> request.outputs[m] == outputs[m].name)
    && |request.imports| == |imports| && (forall m :: 0 <= m < |imports| ==> SentAsImport(imports[m], c, request.imports[m]))
    && |request.tables| == |tables| && (forall m :: 0 <= m < |tables| ==> SentAsTable(tables[m], c, request.tables[m]))
    && |request.xrfc| == |xrfc| && (forall m :: 0 <= m < |xrfc| ==> SentAsXrfc(xrfc[m], c, request.xrfc[m]))
  }

  // ---------------------------------------------------------------- the lists that are built

  lemma {:induction false} SentIsGiven(p: Parameter, c: Call)
    ensures SendsInput(p, c) <==> IsSent(p, c)
    ensures RequestsOutput(p, c) <==> IsWanted(p, c)
    ensures SendsInput(p, c) ==> IsGiven(p, c, ActiveInput(p, c).value)
  {
    assert S.Repeat<CodeUnit>(0x30, 8) == [0x30, 0x30, 0x30, 0x30, 0x30, 0x30, 0x30, 0x30];
    assert S.Repeat<CodeUnit>(0x30, 6) == [0x30, 0x30, 0x30, 0x30, 0x30, 0x30];
  }

  lemma {:induction false} RowsAreEncoded(shape: Shape, rows: seq<Value>, count: nat, width: nat)
    requires count <= |rows| && EncodeRows(shape, rows, count, width).Ok?
    ensures RowsEncoded(shape, rows[..count], EncodeRows(shape, rows, count, width).value)
    decreases count
  {
    if count > 0 {
      RowsAreEncoded(shape, rows, count - 1, width);
      var front := EncodeRows(shape, rows, count - 1, width).value;
      assert forall k :: 0 <= k < count - 1 ==> rows[..count - 1][k] == rows[..count][k];
    }
  }

  lemma {:induction false} ImportIsSent(p: Parameter, c: Call, plan: Plan)
    requires Goes(p, c, AsImport) && Remembers(plan, p, c) && SendsInput(p, c) && ScalarImport(p, ActiveInput(p, c).value, plan).Ok?
    ensures SentAsImport(p, c, Import(p.name, ScalarImport(p, ActiveInput(p, c).value, plan).value))
  {
    SentIsGiven(p, c);
    assert EncodeValue(p.shape, ActiveInput(p, c).value) == ScalarImport(p, ActiveInput(p, c).value, plan);
  }

  lemma {:induction false} TableIsSent(p: Parameter, c: Call, rows: seq<Bytes>)
    requires Goes(p, c, AsTable) && SendsInput(p, c) && InputLengths(p, c).Ok?
    requires
      var v := ActiveInput(p, c).value;
      EncodeRows(p.shape, v.rows, |v.rows|, RowLength(p.shape).value) == Ok(rows)
    ensures SentAsTable(p, c, TableInput(p.name, RowLength(p.shape).value, rows))
  {
    SentIsGiven(p, c);
    var v := ActiveInput(p, c).value;
    RowsAreEncoded(p.shape, v.rows, |v.rows|, RowLength(p.shape).value);
    assert v.rows[..|v.rows|] == v.rows;
  }

  lemma {:induction false} XrfcIsSent(p: Parameter, c: Call, plan: Plan)
    requires Goes(p, c, AsXrfc) && SendsInput(p, c) && Remembers(plan, p, c)
    ensures p.name in plan.xrfcEncodings && SentAsXrfc(p, c, Import(p.name, plan.xrfcEncodings[p.name]))
  {
    SentIsGiven(p, c);
  }

  /** One parameter more: what it asks for and what it sends go to the ends of the lists. */
  lemma {:induction false} ListsGrow(request: Request, ps: seq<Parameter>, c: Call, plan: Plan)
    requires ps != [] && ListsAre(request, ps[..|ps| - 1], c)
    requires Remembers(plan, ps[|ps| - 1], c) && Added(request, ps[|ps| - 1], c, plan).Ok?
    ensures ListsAre(Added(request, ps[|ps| - 1], c, plan).value, ps, c)
  {
    var p := ps[|ps| - 1];
    SentIsGiven(p, c);
    if Goes(p, c, AsImport) {
      ImportGrows(request, p, c, plan);
    } else if Goes(p, c, AsTable) {
      TableGrows(request, p, c, plan);
    } else if Goes(p, c, AsXrfc) {
      XrfcIsSent(p, c, plan);
    }
  }

  lemma {:induction false} ImportGrows(request: Request, p: Parameter, c: Call, plan: Plan)
    requires Goes(p, c, AsImport) && Remembers(plan, p, c) && Added(request, p, c, plan).Ok?
    ensures
      var after := Added(request, p, c, plan).value;
      exists i :: SentAsImport(p, c, i) && after == Asked(request, p, c).(imports := request.imports + [i])
  {
    SentIsGiven(p, c);
    ImportIsSent(p, c, plan);
  }

  lemma {:induction false} TableGrows(request: Request, p: Parameter, c: Call, plan: Plan)
    requires Goes(p, c, AsTable) && Remembers(plan, p, c) && Added(request, p, c, plan).Ok?
    ensures
      var after := Added(request, p, c, plan).value;
      exists t :: SentAsTable(p, c, t) && after == Asked(request, p, c).(tables := request.tables + [t])
  {
    SentIsGiven(p, c);
    var v := ActiveInput(p, c).value;
    TableInputIs(Asked(request, p, c), p, c, plan, v);
    var rows := EncodeRows(p.shape, v.rows, |v.rows|, RowLength(p.shape).value);
    TableIsSent(p, c, rows.value);
  }

  lemma {:induction false} ListsAreBuilt(ps: seq<Parameter>, c: Call, plan: Plan)
    requires Built(ps, c, plan).Ok? && forall i :: 0 <= i < |ps| ==> Remembers(plan, ps[i], c)
    ensures ListsAre(Built(ps, c, plan).value, ps, c)
  {
    if ps != [] {
      var n := |ps| - 1;
      forall i | 0 <= i < n ensures Remembers(plan, ps[..n][i], c) {
        assert Remembers(plan, ps[i], c);
      }
      ListsAreBuilt(ps[..n], c, plan);
      ListsGrow(Built(ps[..n], c, plan).value, ps, c, plan);
    }
  }

  // ---------------------------------------------------------------- the fields of the lists

  ghost predicate HoldsTable(fields: seq<Field>, i: nat, t: TableInput) {
    && i + 2 + |t.rows| <= |fields| && fields[i].value == Utf16Bytes(t.name)
    && fields[i + 1].tag == 0x0302 && |fields[i + 1].value| == 8
    && Quad(fields[i + 1].value, 0) == t.rowLength && Quad(fields[i + 1].value, 4) == |t.rows|
    && CarryRows(fields[i + 2..i + 2 + |t.rows|], t.rows)
  }

  predicate CarryRows(fields: seq<Field>, rows: seq<Bytes>) {
    |fields| == |rows| && forall k :: 0 <= k < |rows| ==> fields[k] == Field(0x0304, rows[k])
  }

  /** Between two empty boundaries the bytes in pieces of 16384, only the last of which may be shorter. */
  predicate HoldsXrfc(fields: seq<Field>, i: nat, closing: nat, value: Bytes) {
    && i < closing < |fields| && fields[i].value == [] && fields[closing].value == []
    && CarryPieces(fields[i + 1..closing], value)
  }

  predicate CarryPieces(fields: seq<Field>, value: Bytes) {
    && |fields| == (|value| + 16383) / 16384
    && forall k :: 0 <= k < |fields| ==> fields[k] == Field(0x3c05, Piece(value, 16384 * k))
  }

  function Piece(value: Bytes, from: int): Bytes {
    if 0 <= from <= |value| then (if |value| - from < 16384 then value[from..] else value[from..from + 16384]) else []
  }

  /** Each list is spelled out at the positions of its tag, and nothing else has that tag. */
  ghost predicate Spells(fields: seq<Field>, request: Request) {
    var outputs, imports, tables, xrfc := Positions(fields, 0x0205), Positions(fields, 0x0201), Positions(fields, 0x0301), Positions(fields, 0x3c02);
    && |outputs| == |request.outputs| && |imports| == |request.imports| && |tables| == |request.tables| && |xrfc| == 2 * |request.xrfc|
    && (forall m :: 0 <= m < |outputs| ==> outputs[m] < |fields| && fields[outputs[m]].value == Utf16Bytes(request.outputs[m]))
    && (forall m :: 0 <= m < |imports| ==> HoldsImport(fields, imports[m], request.imports[m]))
    && (forall m :: 0 <= m < |tables| ==> HoldsTable(fields, tables[m], request.tables[m]))
    && (forall m :: 0 <= m < |request.xrfc| ==> HoldsXrfc(fields, xrfc[2 * m], xrfc[2 * m + 1], request.xrfc[m].value))
  }

  predicate HoldsImport(fields: seq<Field>, i: nat, entry: Import) {
    i + 1 < |fields| && fields[i].value == Utf16Bytes(entry.name) && fields[i + 1] == Field(0x0203, entry.value)
  }

  /** What is spelled stays spelled with more fields behind. */
  lemma {:induction false} SpelledStays(fields: seq<Field>, more: seq<Field>, request: Request)
    requires Spells(fields, request)
    ensures
      var outputs, imports, tables, xrfc := Positions(fields, 0x0205), Positions(fields, 0x0201), Positions(fields, 0x0301), Positions(fields, 0x3c02);
      var all := fields + more;
      && (forall m :: 0 <= m < |outputs| ==> outputs[m] < |all| && all[outputs[m]].value == Utf16Bytes(request.outputs[m]))
      && (forall m :: 0 <= m < |imports| ==> HoldsImport(all, imports[m], request.imports[m]))
      && (forall m :: 0 <= m < |tables| ==> HoldsTable(all, tables[m], request.tables[m]))
      && (forall m :: 0 <= m < |request.xrfc| ==> HoldsXrfc(all, xrfc[2 * m], xrfc[2 * m + 1], request.xrfc[m].value))
  {
    var tables, xrfc := Positions(fields, 0x0301), Positions(fields, 0x3c02);
    var all := fields + more;
    forall m | 0 <= m < |tables| ensures HoldsTable(all, tables[m], request.tables[m]) {
      var i, t := tables[m], request.tables[m];
      assert HoldsTable(fields, i, t);
      assert all[i + 2..i + 2 + |t.rows|] == fields[i + 2..i + 2 + |t.rows|];
    }
    forall m | 0 <= m < |request.xrfc| ensures HoldsXrfc(all, xrfc[2 * m], xrfc[2 * m + 1], request.xrfc[m].value) {
      assert all[xrfc[2 * m] + 1..xrfc[2 * m + 1]] == fields[xrfc[2 * m] + 1..xrfc[2 * m + 1]];
    }
  }

  lemma {:induction false} OutputMore(fields: seq<Field>, request: Request, name: Name)
    requires Spells(fields, request)
    ensures Spells(fields + [Utf16Field(REQUESTED_OUTPUT, name)], request.(outputs := request.outputs + [name]))
  {
    var f := Utf16Field(REQUESTED_OUTPUT, name);
    SpelledStays(fields, [f], request);
    OneFieldMore(fields, f, 0x0205);
    OneFieldMore(fields, f, 0x0201);
    OneFieldMore(fields, f, 0x0301);
    OneFieldMore(fields, f, 0x3c02);
  }

  lemma {:induction false} ImportPositions(fields: seq<Field>, entry: Import, tag: int)
    requires tag in {0x0205, 0x0201, 0x0301, 0x3c02}
    ensures Positions(fields + [Utf16Field(PARAMETER_NAME, entry.name), Field(PARAMETER_VALUE, entry.value)], tag) ==
            Positions(fields, tag) + if tag == PARAMETER_NAME then [|fields|] else []
  {
    var first, second := Utf16Field(PARAMETER_NAME, entry.name), Field(PARAMETER_VALUE, entry.value);
    OneFieldMore(fields, first, tag);
    OneFieldMore(fields + [first], second, tag);
    assert fields + [first, second] == fields + [first] + [second];
  }

  lemma {:induction false} ImportMore(fields: seq<Field>, request: Request, entry: Import)
    requires Spells(fields, request)
    ensures Spells(fields + [Utf16Field(PARAMETER_NAME, entry.name), Field(PARAMETER_VALUE, entry.value)],
                   request.(imports := request.imports + [entry]))
  {
    SpelledStays(fields, [Utf16Field(PARAMETER_NAME, entry.name), Field(PARAMETER_VALUE, entry.value)], request);
    ImportPositions(fields, entry, 0x0205);
    ImportPositions(fields, entry, 0x0201);
    ImportPositions(fields, entry, 0x0301);
    ImportPositions(fields, entry, 0x3c02);
  }

  lemma {:induction false} FourBytesRead(n: nat)
    requires n < 0x1_0000_0000
    ensures Quad(FourBytes(n), 0) == n
  {
    var a, b, c := n / 0x100, n / 0x1_0000, n / 0x100_0000;
    assert n == 0x100 * a + n % 0x100 && a == 0x100 * b + a % 0x100 && b == 0x100 * c + b % 0x100;
    assert b == a / 0x100 && c == b / 0x100;
  }

  lemma {:induction false} HeaderHolds(width: nat, count: nat)
    requires width < 0x1_0000_0000 && count < 0x1_0000_0000
    ensures
      var header := FourBytes(width) + FourBytes(count);
      |header| == 8 && Quad(header, 0) == width && Quad(header, 4) == count
  {
    FourBytesRead(width);
    FourBytesRead(count);
    var header := FourBytes(width) + FourBytes(count);
    assert header[0..4] == FourBytes(width) && header[4..8] == FourBytes(count);
  }

  lemma {:induction false} TableHeld(fields: seq<Field>, t: TableInput)
    requires TableFits(t)
    ensures HoldsTable(fields + OneTable(t), |fields|, t)
  {
    var all := fields + OneTable(t);
    HeaderHolds(t.rowLength, |t.rows|);
    assert all[|fields|] == Utf16Field(TABLE_NAME, t.name);
    assert all[|fields| + 1] == Field(TABLE_HEADER, FourBytes(t.rowLength) + FourBytes(|t.rows|));
    assert all[|fields| + 2..|fields| + 2 + |t.rows|] == RowFields(t.rows);
  }

  lemma {:induction false} OneTablePositions(fields: seq<Field>, t: TableInput, tag: int)
    requires TableFits(t) && tag in {0x0205, 0x0201, 0x0301, 0x3c02}
    ensures Positions(fields + OneTable(t), tag) == Positions(fields, tag) + if tag == TABLE_NAME then [|fields|] else []
  {
    var first, second := Utf16Field(TABLE_NAME, t.name), Field(TABLE_HEADER, FourBytes(t.rowLength) + FourBytes(|t.rows|));
    TablePositions(fields, first, second, RowFields(t.rows), tag);
    assert fields + OneTable(t) == fields + [first] + [second] + RowFields(t.rows);
  }

  lemma {:induction false} TableMoreSpelled(fields: seq<Field>, request: Request, t: TableInput)
    requires Spells(fields, request) && TableFits(t)
    ensures Spells(fields + OneTable(t), request.(tables := request.tables + [t]))
  {
    SpelledStays(fields, OneTable(t), request);
    TableHeld(fields, t);
    OneTablePositions(fields, t, 0x0205);
    OneTablePositions(fields, t, 0x0201);
    OneTablePositions(fields, t, 0x0301);
    OneTablePositions(fields, t, 0x3c02);
  }

  lemma {:induction false} DataIsPieces(b: Bytes)
    ensures CarryPieces(DataFields(b), b)
    decreases |b|
  {
    if |b| > XRFC_CHUNK {
      var rest := b[XRFC_CHUNK..];
      var fields := DataFields(b);
      DataIsPieces(rest);
      assert fields == [Field(XRFC_DATA, b[..XRFC_CHUNK])] + DataFields(rest);
      forall k | 0 <= k < |fields| ensures fields[k] == Field(0x3c05, Piece(b, 16384 * k)) {
        if k > 0 {
          assert fields[k] == DataFields(rest)[k - 1];
          PieceOfRest(b, 16384 * (k - 1));
          assert 16384 * k == 16384 * (k - 1) + 16384;
        }
      }
    }
  }

  lemma {:induction false} PieceOfRest(b: Bytes, from: nat)
    requires |b| > 16384
    ensures Piece(b[16384..], from) == Piece(b, from + 16384)
  {}

  lemma {:induction false} DataInside(fields: seq<Field>, boundary: Field, data: seq<Field>)
    ensures var all := fields + ([boundary] + data + [boundary]);
            all == fields + [boundary] + data + [boundary] && all[|fields| + 1..|fields| + 1 + |data|] == data
  {}

  lemma {:induction false} XrfcMoreSpelled(fields: seq<Field>, request: Request, entry: Import)
    requires Spells(fields, request)
    ensures Spells(fields + ([Field(XRFC_PARAMETER, [])] + DataFields(entry.value) + [Field(XRFC_PARAMETER, [])]),
                   request.(xrfc := request.xrfc + [entry]))
  {
    var boundary, data := Field(XRFC_PARAMETER, []), DataFields(entry.value);
    var all := fields + ([boundary] + data + [boundary]);
    SpelledStays(fields, [boundary] + data + [boundary], request);
    DataIsPieces(entry.value);
    DataInside(fields, boundary, data);
    BoundedPositions(fields, boundary, data, 0x0205);
    BoundedPositions(fields, boundary, data, 0x0201);
    BoundedPositions(fields, boundary, data, 0x0301);
    BoundedPositions(fields, boundary, data, 0x3c02);
  }

  // ---------------------------------------------------------------- all of the lists

  lemma {:induction false} LastApart<T>(front: seq<T>, s: seq<T>)
    requires s != []
    ensures front + s == front + s[..|s| - 1] + [s[|s| - 1]]
  {}

  lemma {:induction false} Grouped(a: seq<Field>, b: seq<Field>, c: seq<Field>)
    ensures a + (b + c) == a + b + c
  {}

  lemma {:induction false} OutputsSpelled(fields: seq<Field>, request: Request, names: seq<Name>)
    requires Spells(fields, request)
    ensures Spells(fields + OutputFields(names), request.(outputs := request.outputs + names))
  {
    if names == [] {
      assert fields + [] == fields && request.outputs + [] == request.outputs;
    } else {
      var n := |names| - 1;
      OutputsSpelled(fields, request, names[..n]);
      OutputMore(fields + OutputFields(names[..n]), request.(outputs := request.outputs + names[..n]), names[n]);
      Grouped(fields, OutputFields(names[..n]), [Utf16Field(REQUESTED_OUTPUT, names[n])]);
      LastApart(request.outputs, names);
    }
  }

  lemma {:induction false} ImportsSpelled(fields: seq<Field>, request: Request, imports: seq<Import>)
    requires Spells(fields, request)
    ensures Spells(fields + ImportFields(imports), request.(imports := request.imports + imports))
  {
    if imports == [] {
      assert fields + [] == fields && request.imports + [] == request.imports;
    } else {
      var n := |imports| - 1;
      ImportsSpelled(fields, request, imports[..n]);
      ImportMore(fields + ImportFields(imports[..n]), request.(imports := request.imports + imports[..n]), imports[n]);
      Grouped(fields, ImportFields(imports[..n]), [Utf16Field(PARAMETER_NAME, imports[n].name), Field(PARAMETER_VALUE, imports[n].value)]);
      LastApart(request.imports, imports);
    }
  }

  lemma {:induction false} TablesSpelled(fields: seq<Field>, request: Request, tables: seq<TableInput>)
    requires Spells(fields, request) && forall i :: 0 <= i < |tables| ==> TableFits(tables[i])
    ensures Spells(fields + TableFields(tables), request.(tables := request.tables + tables))
  {
    if tables == [] {
      assert fields + [] == fields && request.tables + [] == request.tables;
    } else {
      var n := |tables| - 1;
      TablesSpelled(fields, request, tables[..n]);
      assert TableFits(tables[n]);
      TableMoreSpelled(fields + TableFields(tables[..n]), request.(tables := request.tables + tables[..n]), tables[n]);
      Grouped(fields, TableFields(tables[..n]), OneTable(tables[n]));
      LastApart(request.tables, tables);
    }
  }

  lemma {:induction false} XrfcSpelledOut(fields: seq<Field>, request: Request, xrfc: seq<Import>)
    requires Spells(fields, request)
    ensures Spells(fields + XrfcFields(xrfc), request.(xrfc := request.xrfc + xrfc))
  {
    if xrfc == [] {
      assert fields + [] == fields && request.xrfc + [] == request.xrfc;
    } else {
      var n := |xrfc| - 1;
      var entry := [Field(XRFC_PARAMETER, [])] + DataFields(xrfc[n].value) + [Field(XRFC_PARAMETER, [])];
      XrfcSpelledOut(fields, request, xrfc[..n]);
      XrfcMoreSpelled(fields + XrfcFields(xrfc[..n]), request.(xrfc := request.xrfc + xrfc[..n]), xrfc[n]);
      Grouped(fields, XrfcFields(xrfc[..n]), entry);
      LastApart(request.xrfc, xrfc);
    }
  }

  /** A field of another tag changes nothing. */
  lemma {:induction false} OtherMore(fields: seq<Field>, request: Request, f: Field)
    requires Spells(fields, request) && f.tag !in {0x0205, 0x0201, 0x0301, 0x3c02}
    ensures Spells(fields + [f], request)
  {
    SpelledStays(fields, [f], request);
    OneFieldMore(fields, f, 0x0205);
    OneFieldMore(fields, f, 0x0201);
    OneFieldMore(fields, f, 0x0301);
    OneFieldMore(fields, f, 0x3c02);
  }

  predicate IsFramed(functionName: Name, fields: seq<Field>) {
    && |fields| >= 4 && fields[0] == Field(0x000b, Utf16Bytes([0x37, 0x35, 0x34])) && fields[1] == Field(0x0102, Utf16Bytes(functionName))
    && fields[2] == Field(0x0512, []) && fields[|fields| - 1] == Field(0xffff, [])
  }

  function Head(functionName: Name): seq<Field> {
    [Utf16Field(KERNEL, KERNEL_RELEASE), Utf16Field(FUNCTION, functionName), Field(CALL_CONTEXT, [])]
  }

  lemma {:induction false} HeadSpelled(functionName: Name)
    ensures Spells(Head(functionName), EMPTY_REQUEST)
  {
    var head := Head(functionName);
    OtherMore([], EMPTY_REQUEST, head[0]);
    OtherMore([] + [head[0]], EMPTY_REQUEST, head[1]);
    OtherMore([] + [head[0]] + [head[1]], EMPTY_REQUEST, head[2]);
    assert [] + [head[0]] + [head[1]] + [head[2]] == head;
  }

  lemma {:induction false} FirstListsSpelled(fields: seq<Field>, outputs: seq<Name>, imports: seq<Import>)
    requires Spells(fields, EMPTY_REQUEST)
    ensures Spells(fields + OutputFields(outputs) + ImportFields(imports), Request(outputs, imports, [], []))
  {
    OutputsSpelled(fields, EMPTY_REQUEST, outputs);
    assert [] + outputs == outputs && [] + imports == imports;
    ImportsSpelled(fields + OutputFields(outputs), Request(outputs, [], [], []), imports);
  }

  lemma {:induction false} LastListsSpelled(fields: seq<Field>, request: Request)
    requires Spells(fields, Request(request.outputs, request.imports, [], []))
    requires forall i :: 0 <= i < |request.tables| ==> TableFits(request.tables[i])
    ensures Spells(fields + TableFields(request.tables) + XrfcFields(request.xrfc), request)
  {
    TablesSpelled(fields, Request(request.outputs, request.imports, [], []), request.tables);
    assert [] + request.tables == request.tables && [] + request.xrfc == request.xrfc;
    XrfcSpelledOut(fields + TableFields(request.tables), Request(request.outputs, request.imports, request.tables, []), request.xrfc);
  }

  /** The fields before the end. */
  function Body(functionName: Name, request: Request): seq<Field>
    requires Encodable(functionName, request)
  {
    Head(functionName) + OutputFields(request.outputs) + ImportFields(request.imports) + TableFields(request.tables) + XrfcFields(request.xrfc)
  }

  lemma {:induction false} FieldsAreBody(functionName: Name, request: Request)
    requires Encodable(functionName, request)
    ensures RequestFields(functionName, request) == Body(functionName, request) + [Field(END, [])]
  {}

  lemma {:induction false} BodyFramed(functionName: Name, request: Request)
    requires Encodable(functionName, request)
    ensures IsFramed(functionName, Body(functionName, request) + [Field(END, [])])
  {}

  lemma {:induction false} BodySpelled(functionName: Name, request: Request)
    requires Encodable(functionName, request)
    ensures Spells(Body(functionName, request), request)
  {
    HeadSpelled(functionName);
    FirstListsSpelled(Head(functionName), request.outputs, request.imports);
    LastListsSpelled(Head(functionName) + OutputFields(request.outputs) + ImportFields(request.imports), request);
  }

  lemma {:induction false} RequestSpelled(functionName: Name, request: Request)
    requires Encodable(functionName, request)
    ensures IsFramed(functionName, RequestFields(functionName, request)) && Spells(RequestFields(functionName, request), request)
  {
    FieldsAreBody(functionName, request);
    BodyFramed(functionName, request);
    BodySpelled(functionName, request);
    OtherMore(Body(functionName, request), request, Field(END, []));
  }

  // ---------------------------------------------------------------- the whole request

  /**
   * A built request is framed by the release, the function name and the end, and holds in metadata
   * order exactly the outputs asked for and the inputs sent: each import and xRFC value as the
   * encoding of what the caller gave or of the initial value, each table with its width and number
   * of rows and one row for each row given, in order.
   */
  lemma {:induction false} RequestHoldsInputs(functionName: Name, ps: seq<Parameter>, c: Call, maximum: Option<nat>)
    returns (request: Request)
    requires BuildRequest(functionName, ps, c, maximum).Ok?
    ensures
      var fields := BuildRequest(functionName, ps, c, maximum).value;
      IsFramed(functionName, fields) && Spells(fields, request) && ListsAre(request, ps, c)
  {
    var plan := Preflight(functionName, ps, c, maximum).value;
    request := Built(ps, c, plan).value;
    BuiltOnlyWithDistinctNames(functionName, ps, c, maximum);
    PlanRemembersAll(ps, c);
    ListsAreBuilt(ps, c, plan);
    RequestSpelled(functionName, request);
  }
}
