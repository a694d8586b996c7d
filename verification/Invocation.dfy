/**
 * Building the request of a classic RFC call: which inputs are sent and which outputs are
 * asked for, the plan that measures the request beforehand, the request built from it, and the
 * field list it is sent as.
 */
module Invocation {
  import opened Text
  import opened Wrappers
  import opened ClassicResult
  import S = Scalars

  type Name = Units

  datatype Usage = Importing | Exporting | Changing | Tables | OtherUsage

  /**
   * How values of a parameter are encoded. Structures, decimal floats and deep (xRFC) values
   * have codecs that are not part of this model: their values come with their encoding. A deep
   * structure is unresolved: only recursive metadata can say how it is encoded.
   */
  datatype Shape =
    Fixed(kind: S.Kind) | Decimal(width: nat) | Flat(width: nat, exact: Option<nat>) | Deep | Unresolved

  /**
   * outputUsable: the shape resolves well enough to decode the parameter as an output.
   * initialBytes: the encoding of the initial value, for shapes whose codec is not modelled.
   */
  datatype Parameter = Parameter(
    usage: Usage, name: Name, shape: Shape, optional: bool, outputUsable: bool, initialBytes: Bytes)

  datatype Value = Plain(value: S.Value) | Encoded(bytes: Bytes) | Rows(rows: seq<Value>)

  /**
   * The caller's input and its activation choices; deactivated includes what was not requested.
   * recursive: the names that the recursive metadata resolves among the selected parameters.
   */
  datatype Call = Call(input: map<Name, Value>, activated: set<Name>, deactivated: set<Name>, recursive: set<Name>)

  datatype RequestError = Invalid | TooLarge | LengthChanged | DuplicateName

  // ---------------------------------------------------------------- activation

  function InitialFixed(k: S.Kind): S.Value {
    match k
    case Char(_) | Numc(_) | AbapString => S.TextValue([])
    case Date => S.TextValue(S.Repeat(0x30, 8))
    case Time => S.TextValue(S.Repeat(0x30, 6))
    case Raw(_) | XString => S.BytesValue([])
    case _ => S.IntegerValue(0)
  }

  function InitialValue(p: Parameter): Value {
    if p.shape.Fixed? then Plain(InitialFixed(p.shape.kind)) else Encoded(p.initialBytes)
  }

  /** The value a parameter is sent with, if it is sent at all. */
  function ActiveInput(p: Parameter, c: Call): Option<Value> {
    if p.name in c.deactivated then None
    else if p.name in c.input then Some(c.input[p.name])
    else if p.optional && p.name !in c.activated then None
    else Some(if p.usage == Tables then Rows([]) else InitialValue(p))
  }

  predicate RequestsOutput(p: Parameter, c: Call) {
    && p.name !in c.deactivated
    && (p.usage == Exporting || p.usage == Tables || (p.usage == Changing && ActiveInput(p, c).Some?))
  }

  predicate SendsInput(p: Parameter, c: Call) {
    (p.usage == Importing || p.usage == Changing || p.usage == Tables) && ActiveInput(p, c).Some?
  }

  /** Recursive metadata decides by name, the shape for one parameter. */
  predicate IsDeep(p: Parameter, c: Call) {
    p.name in c.recursive || p.shape.Deep?
  }

  // ---------------------------------------------------------------- measuring

  /** The bytes of one field: its tag, its length header (compact or extended) and its value. */
  function RecordLength(n: nat): nat {
    2 + (if n <= 0xFFFE then 4 else 8) + n
  }

  function Total(lengths: seq<nat>): nat {
    if lengths == [] then 0 else Total(lengths[..|lengths| - 1]) + RecordLength(lengths[|lengths| - 1])
  }

  const FIXED_APPLICATION_BYTES := 6
  const MAX_ROWS := 0xffff_ffff
  const XRFC_CHUNK: nat := 16 * 1024

  predicate NameFits(s: Units, maximum: nat) {
    1 <= |s| <= maximum && 0 !in s && IsScalarText(s)
  }

  /** xRFC data travels in chunks, all full but the last. */
  function Chunks(n: nat): seq<nat> {
    if n == 0 then [] else if n <= XRFC_CHUNK then [n] else [XRFC_CHUNK] + Chunks(n - XRFC_CHUNK)
  }

  function Checked<T>(r: Result<T, S.Error>): Result<T, RequestError> {
    match r
    case Ok(v) => Ok(v)
    case Err(_) => Err(Invalid)
  }

  /** The length of a scalar import, computed without encoding it where that is possible. */
  function ValueLength(shape: Shape, v: Value): Result<nat, RequestError> {
    match shape
    case Fixed(kind) => if v.Plain? then Checked(S.EncodedLength(kind, v.value)) else Err(Invalid)
    case Decimal(width) => if v.Encoded? && |v.bytes| == width then Ok(width) else Err(Invalid)
    case Flat(width, _) => if v.Encoded? then Ok(width) else Err(Invalid)
    case Deep | Unresolved => Err(Invalid)
  }

  function EncodeValue(shape: Shape, v: Value): Result<Bytes, RequestError> {
    match shape
    case Fixed(kind) => if v.Plain? then Checked(S.EncodeScalar(kind, v.value)) else Err(Invalid)
    case Decimal(width) => if v.Encoded? && |v.bytes| == width then Ok(v.bytes) else Err(Invalid)
    case Flat(width, _) => if v.Encoded? && |v.bytes| == width then Ok(v.bytes) else Err(Invalid)
    case Deep | Unresolved => Err(Invalid)
  }

  /** The width of the rows of a table parameter. */
  function RowLength(shape: Shape): Result<nat, RequestError> {
    match shape
    case Fixed(kind) =>
      if kind.AbapString? || kind.XString? then Err(Invalid) else Checked(S.EncodedLength(kind, InitialFixed(kind)))
    case Decimal(width) => Ok(width)
    case Flat(width, _) => Ok(width)
    case Deep | Unresolved => Err(Invalid)
  }

  function OutputLengths(p: Parameter, c: Call): Result<seq<nat>, RequestError> {
    if !RequestsOutput(p, c) then Ok([])
    else if !(p.name in c.recursive || p.outputUsable) || !NameFits(p.name, 30) then Err(Invalid)
    else Ok([2 * |p.name|])
  }

  function InputLengths(p: Parameter, c: Call): Result<seq<nat>, RequestError> {
    if p.usage == OtherUsage then Err(Invalid)
    else if !SendsInput(p, c) then Ok([])
    else
      var v := ActiveInput(p, c).value;
      if p.usage == Tables then
        if !v.Rows? || IsDeep(p, c) || RowLength(p.shape).Err? || !NameFits(p.name, 30) || |v.rows| > MAX_ROWS then Err(Invalid)
        else Ok([2 * |p.name|, 8] + S.Repeat(RowLength(p.shape).value, |v.rows|))
      else if IsDeep(p, c) then
        if v.Encoded? then Ok([0] + Chunks(|v.bytes|) + [0]) else Err(Invalid)
      else if !NameFits(p.name, 30) || ValueLength(p.shape, v).Err? then Err(Invalid)
      else Ok([2 * |p.name|, ValueLength(p.shape, v).value])
  }

  /** What the measuring pass leaves behind, keyed by parameter name. */
  datatype Plan = Plan(
    lengths: seq<nat>,
    scalarLengths: map<Name, nat>,
    scalarEncodings: map<Name, Bytes>,
    rowCounts: map<Name, nat>,
    rowLengths: map<Name, nat>,
    xrfcEncodings: map<Name, Bytes>)

  const EMPTY_PLAN := Plan([], map[], map[], map[], map[], map[])

  /** The maps after one parameter; a later parameter of the same name takes the entry over. */
  function Recorded(plan: Plan, p: Parameter, c: Call): Plan {
    if !SendsInput(p, c) || InputLengths(p, c).Err? then plan
    else
      var v := ActiveInput(p, c).value;
      if p.usage == Tables then
        plan.(rowCounts := plan.rowCounts[p.name := |v.rows|], rowLengths := plan.rowLengths[p.name := RowLength(p.shape).value])
      else if IsDeep(p, c) then plan.(xrfcEncodings := plan.xrfcEncodings[p.name := v.bytes])
      else
        var measured := plan.(scalarLengths := plan.scalarLengths[p.name := ValueLength(p.shape, v).value]);
        if p.shape.Decimal? then measured.(scalarEncodings := plan.scalarEncodings[p.name := v.bytes]) else measured
  }

  predicate DuplicateXrfc(plan: Plan, p: Parameter, c: Call) {
    SendsInput(p, c) && p.usage != Tables && IsDeep(p, c) && p.name in plan.xrfcEncodings
  }

  function Measured(plan: Plan, p: Parameter, c: Call): Result<Plan, RequestError> {
    match OutputLengths(p, c)
    case Err(e) => Err(e)
    case Ok(outputs) =>
      match InputLengths(p, c)
      case Err(e) => Err(e)
      case Ok(inputs) =>
        if DuplicateXrfc(plan, p, c) then Err(DuplicateName)
        else Ok(Recorded(plan, p, c).(lengths := plan.lengths + outputs + inputs))
  }

  function PlanOf(ps: seq<Parameter>, c: Call): Result<Plan, RequestError> {
    if ps == [] then Ok(EMPTY_PLAN)
    else
      match PlanOf(ps[..|ps| - 1], c)
      case Err(e) => Err(e)
      case Ok(plan) => Measured(plan, ps[|ps| - 1], c)
  }

  /** All lengths of the request: kernel release, function name, call context, parameters, end. */
  function RequestLengths(functionName: Name, plan: Plan): seq<nat> {
    [6, 2 * |functionName|, 0] + plan.lengths + [0]
  }

  /** Limits are decided on the whole request. */
  ghost predicate Fits(lengths: seq<nat>, maximum: Option<nat>) {
    && (forall i :: 0 <= i < |lengths| ==> lengths[i] <= MAX_FIELD_LENGTH)
    && |lengths| <= MAX_FIELD_COUNT && Total(lengths) <= MAX_CHAIN_LENGTH
    && (maximum.Some? ==> FIXED_APPLICATION_BYTES + Total(lengths) <= maximum.value)
  }

  ghost function Preflight(functionName: Name, ps: seq<Parameter>, c: Call,
      maximum: Option<nat>): Result<Plan, RequestError>
  {
    if !NameFits(functionName, 40) then Err(Invalid)
    else
      match PlanOf(ps, c)
      case Err(e) => Err(e)
      case Ok(plan) => if Fits(RequestLengths(functionName, plan), maximum) then Ok(plan) else Err(TooLarge)
  }

  // ---------------------------------------------------------------- building

  datatype Import = Import(name: Name, value: Bytes)
  datatype TableInput = TableInput(name: Name, rowLength: nat, rows: seq<Bytes>)

  datatype Request = Request(outputs: seq<Name>, imports: seq<Import>, tables: seq<TableInput>, xrfc: seq<Import>)

  const EMPTY_REQUEST := Request([], [], [], [])

  /** The rows of a table, as many as were counted and as wide as was measured. */
  function EncodeRows(shape: Shape, rows: seq<Value>, count: nat, width: nat): Result<seq<Bytes>, RequestError> {
    if count == 0 then Ok([])
    else
      match EncodeRows(shape, rows, count - 1, width)
      case Err(e) => Err(e)
      case Ok(front) =>
        if count > |rows| then Err(Invalid)
        else
          match EncodeValue(shape, rows[count - 1])
          case Err(e) => Err(e)
          case Ok(bytes) => if |bytes| != width then Err(LengthChanged) else Ok(front + [bytes])
  }

  function ScalarImport(p: Parameter, v: Value, plan: Plan): Result<Bytes, RequestError> {
    if p.name !in plan.scalarLengths then Err(Invalid)
    else
      var encoded :=
        if p.shape.Decimal? then
          (if p.name in plan.scalarEncodings then Ok(plan.scalarEncodings[p.name]) else Err(Invalid))
        else EncodeValue(p.shape, v);
      if encoded.Ok? && |encoded.value| != plan.scalarLengths[p.name] then Err(LengthChanged) else encoded
  }

  function AddedInput(request: Request, p: Parameter, c: Call, plan: Plan): Result<Request, RequestError>
    requires SendsInput(p, c)
  {
    var v := ActiveInput(p, c).value;
    if p.usage == Tables then
      if !v.Rows? || p.name !in plan.rowCounts || p.name !in plan.rowLengths then Err(Invalid)
      else
        match EncodeRows(p.shape, v.rows, plan.rowCounts[p.name], plan.rowLengths[p.name])
        case Err(e) => Err(e)
        case Ok(rows) => Ok(request.(tables := request.tables + [TableInput(p.name, plan.rowLengths[p.name], rows)]))
    else if p.name in plan.xrfcEncodings then
      Ok(request.(xrfc := request.xrfc + [Import(p.name, plan.xrfcEncodings[p.name])]))
    else
      match ScalarImport(p, v, plan)
      case Err(e) => Err(e)
      case Ok(bytes) => Ok(request.(imports := request.imports + [Import(p.name, bytes)]))
  }

  function Added(request: Request, p: Parameter, c: Call, plan: Plan): Result<Request, RequestError> {
    var asked := if RequestsOutput(p, c) then request.(outputs := request.outputs + [p.name]) else request;
    if p.usage == OtherUsage then Err(Invalid)
    else if SendsInput(p, c) then AddedInput(asked, p, c, plan)
    else Ok(asked)
  }

  function Built(ps: seq<Parameter>, c: Call, plan: Plan): Result<Request, RequestError> {
    if ps == [] then Ok(EMPTY_REQUEST)
    else
      match Built(ps[..|ps| - 1], c, plan)
      case Err(e) => Err(e)
      case Ok(request) => Added(request, ps[|ps| - 1], c, plan)
  }

  // ---------------------------------------------------------------- the field list

  function Utf16Field(tag: int, s: Units): Field {
    Field(tag, Utf16Bytes(s))
  }

  function OutputFields(names: seq<Name>): seq<Field> {
    if names == [] then [] else OutputFields(names[..|names| - 1]) + [Utf16Field(REQUESTED_OUTPUT, names[|names| - 1])]
  }

  function ImportFields(imports: seq<Import>): seq<Field> {
    if imports == [] then []
    else
      var last := imports[|imports| - 1];
      ImportFields(imports[..|imports| - 1]) + [Utf16Field(PARAMETER_NAME, last.name), Field(PARAMETER_VALUE, last.value)]
  }

  function FourBytes(n: nat): (r: Bytes)
    requires n < 0x1_0000_0000
    ensures |r| == 4
  {
    Four(n / 0x100_0000, n / 0x1_0000 % 0x100, n / 0x100 % 0x100, n % 0x100)
  }

  function RowFields(rows: seq<Bytes>): (r: seq<Field>)
    ensures |r| == |rows|
  {
    seq(|rows|, i requires 0 <= i < |rows| => Field(TABLE_COMPR, rows[i]))
  }

  function OneTable(t: TableInput): seq<Field>
    requires t.rowLength < 0x1_0000_0000 && |t.rows| < 0x1_0000_0000
  {
    [Utf16Field(TABLE_NAME, t.name), Field(TABLE_HEADER, FourBytes(t.rowLength) + FourBytes(|t.rows|))] + RowFields(t.rows)
  }

  predicate TableFits(t: TableInput) {
    && t.rowLength < 0x1_0000_0000 && |t.rows| < 0x1_0000_0000 && (t.rows != [] ==> t.rowLength != 0)
    && forall i :: 0 <= i < |t.rows| ==> |t.rows[i]| == t.rowLength
  }

  function TableFields(tables: seq<TableInput>): seq<Field>
    requires forall i :: 0 <= i < |tables| ==> TableFits(tables[i])
  {
    if tables == [] then []
    else
      assert TableFits(tables[|tables| - 1]);
      TableFields(tables[..|tables| - 1]) + OneTable(tables[|tables| - 1])
  }

  function DataFields(b: Bytes): seq<Field> {
    if b == [] then []
    else if |b| <= XRFC_CHUNK then [Field(XRFC_DATA, b)]
    else [Field(XRFC_DATA, b[..XRFC_CHUNK])] + DataFields(b[XRFC_CHUNK..])
  }

  function XrfcFields(xrfc: seq<Import>): seq<Field> {
    if xrfc == [] then []
    else
      XrfcFields(xrfc[..|xrfc| - 1])
        + ([Field(XRFC_PARAMETER, [])] + DataFields(xrfc[|xrfc| - 1].value) + [Field(XRFC_PARAMETER, [])])
  }

  function ImportNames(imports: seq<Import>): (r: seq<Name>)
    ensures |r| == |imports| && forall i :: 0 <= i < |r| ==> r[i] == imports[i].name
  {
    seq(|imports|, i requires 0 <= i < |imports| => imports[i].name)
  }

  function TableNames(tables: seq<TableInput>): (r: seq<Name>)
    ensures |r| == |tables| && forall i :: 0 <= i < |r| ==> r[i] == tables[i].name
  {
    seq(|tables|, i requires 0 <= i < |tables| => tables[i].name)
  }

  function InputNames(request: Request): seq<Name> {
    ImportNames(request.imports) + TableNames(request.tables) + ImportNames(request.xrfc)
  }

  predicate Distinct<T(==)>(s: seq<T>) {
    forall i, j :: 0 <= i < j < |s| ==> s[i] != s[j]
  }

  /** The encoder's own checks: names, duplicates, table geometry, and xRFC values that are there. */
  predicate Encodable(functionName: Name, request: Request) {
    && NameFits(functionName, 40)
    && Distinct(request.outputs) && Distinct(InputNames(request))
    && (forall i :: 0 <= i < |request.outputs| ==> NameFits(request.outputs[i], 30))
    && (forall i :: 0 <= i < |InputNames(request)| ==> NameFits(InputNames(request)[i], 30))
    && (forall i :: 0 <= i < |request.tables| ==> TableFits(request.tables[i]))
    && (forall i :: 0 <= i < |request.xrfc| ==> request.xrfc[i].value != [])
  }

  const KERNEL := 0x000b
  const FUNCTION := 0x0102
  const CALL_CONTEXT := 0x0512
  const END := 0xffff
  const KERNEL_RELEASE: Units := [0x37, 0x35, 0x34]

  function RequestFields(functionName: Name, request: Request): seq<Field>
    requires Encodable(functionName, request)
  {
    [Utf16Field(KERNEL, KERNEL_RELEASE), Utf16Field(FUNCTION, functionName), Field(CALL_CONTEXT, [])]
      + OutputFields(request.outputs) + ImportFields(request.imports) + TableFields(request.tables)
      + XrfcFields(request.xrfc) + [Field(END, [])]
  }

  function FieldLengths(fields: seq<Field>): (r: seq<nat>)
    ensures |r| == |fields| && forall i :: 0 <= i < |r| ==> r[i] == |fields[i].value|
  {
    seq(|fields|, i requires 0 <= i < |fields| => |fields[i].value|)
  }

  /** The whole of building: measure, build, encode. */
  ghost function BuildRequest(functionName: Name, ps: seq<Parameter>, c: Call,
      maximum: Option<nat>): Result<seq<Field>, RequestError>
  {
    match Preflight(functionName, ps, c, maximum)
    case Err(e) => Err(e)
    case Ok(plan) =>
      match Built(ps, c, plan)
      case Err(e) => Err(e)
      case Ok(request) => if Encodable(functionName, request) then Ok(RequestFields(functionName, request)) else Err(Invalid)
  }
}
