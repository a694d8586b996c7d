/**
 * Which outputs a call asks for, and what decoding its reply returns. Capture fixes the
 * caller's choices once; the request is built with the input at hand, the reply is decoded
 * without it, and both must select the same outputs.
 */
module RequestedOutputs {
  import opened Text
  import opened Wrappers
  import opened ClassicResult
  import opened Invocation
  import D = ClassicDecoder
  import S = Scalars
  import X = XrfcNames

  /** The caller's options before capture, and the names the recursive metadata resolves. */
  datatype Options = Options(notRequested: set<Name>, activated: set<Name>, deactivated: set<Name>, recursive: set<Name>)

  datatype OutputError =
    | UnknownParameter | ExportAsInput | TooManyInputs | NotAResult | Nameless | Repeated | WrongDirection | Undecodable | MissingOutput

  /** The last parameter of a name, as a map built from the list holds it. */
  function Lookup(ps: seq<Parameter>, name: Name): (r: Option<Parameter>)
    ensures r.Some? ==> r.value in ps && r.value.name == name
  {
    if ps == [] then None
    else if ps[|ps| - 1].name == name then Some(ps[|ps| - 1])
    else Lookup(ps[..|ps| - 1], name)
  }

  ghost predicate AllKnown(ps: seq<Parameter>, names: set<Name>) {
    forall name :: name in names ==> Lookup(ps, name).Some?
  }

  /** Capture: every name is known, no export is supplied, and what is supplied counts as activated. */
  ghost function Captured(ps: seq<Parameter>, input: map<Name, Value>, o: Options): Result<Call, OutputError> {
    if !AllKnown(ps, o.notRequested + o.activated + o.deactivated) then Err(UnknownParameter)
    else if |input| > |ps| then Err(TooManyInputs)
    else if !AllKnown(ps, input.Keys) then Err(UnknownParameter)
    else if exists name :: name in input && Lookup(ps, name).value.usage == Exporting then Err(ExportAsInput)
    else Ok(Call(input, o.activated + input.Keys, o.notRequested + o.deactivated, o.recursive))
  }

  /** The same choices without the input, as the decoder sees them. */
  function WithoutInput(c: Call): Call {
    c.(input := map[])
  }

  /** The outputs asked for, in metadata order. */
  function RequestedNames(ps: seq<Parameter>, c: Call): seq<Name> {
    if ps == [] then []
    else RequestedNames(ps[..|ps| - 1], c) + if RequestsOutput(ps[|ps| - 1], c) then [ps[|ps| - 1].name] else []
  }

  /** A changing parameter that is sent only because the input is at hand. */
  predicate SeenOnlyWithInput(p: Parameter, c: Call) {
    p.usage == Changing && p.name !in c.deactivated && p.optional && p.name in c.input && p.name !in c.activated
  }

  /** For one parameter, request and reply agree unless it is supplied, optional and not activated. */
  lemma {:induction false} SelectionAgreesIff(p: Parameter, c: Call)
    ensures RequestsOutput(p, c) == RequestsOutput(p, WithoutInput(c)) <==> !SeenOnlyWithInput(p, c)
  {}

  lemma {:induction false} SelectionsAgree(ps: seq<Parameter>, c: Call)
    requires c.input.Keys <= c.activated
    ensures RequestedNames(ps, c) == RequestedNames(ps, WithoutInput(c))
  {
    if ps != [] {
      SelectionsAgree(ps[..|ps| - 1], c);
      SelectionAgreesIff(ps[|ps| - 1], c);
    }
  }

  /** Capture is what makes them agree: after it, the decoder selects exactly the outputs the request names. */
  lemma {:induction false} CaptureMakesSelectionsAgree(ps: seq<Parameter>, input: map<Name, Value>, o: Options)
    requires Captured(ps, input, o).Ok?
    ensures RequestedNames(ps, Captured(ps, input, o).value) == RequestedNames(ps, WithoutInput(Captured(ps, input, o).value))
  {
    SelectionsAgree(ps, Captured(ps, input, o).value);
  }

  /** The request asks for exactly the selected outputs, in metadata order. */
  lemma {:induction false} RequestAsksForSelection(ps: seq<Parameter>, c: Call, plan: Plan)
    requires Built(ps, c, plan).Ok?
    ensures Built(ps, c, plan).value.outputs == RequestedNames(ps, c)
  {
    if ps != [] {
      RequestAsksForSelection(ps[..|ps| - 1], c, plan);
    }
  }

  // ---------------------------------------------------------------- decoding

  /** Decimal floats, structures and deep values are handed on for codecs that are not part of this model. */
  datatype Output = ScalarOutput(value: S.Value) | Encoding(bytes: Bytes) | TableOutput(rows: seq<Output>)

  function DecodeValue(shape: Shape, b: Bytes): Result<Output, OutputError> {
    match shape
    case Fixed(kind) =>
      (match S.DecodeScalar(kind, b)
       case Ok(v) => Ok(ScalarOutput(v))
       case Err(_) => Err(Undecodable))
    case Decimal(width) => if |b| == width then Ok(Encoding(b)) else Err(Undecodable)
    case Flat(width, exact) => if |b| == width || exact == Some(|b|) then Ok(Encoding(b)) else Err(Undecodable)
    case Deep | Unresolved => Err(Undecodable)
  }

  function DecodeRows(shape: Shape, rows: seq<Bytes>): Result<seq<Output>, OutputError> {
    if rows == [] then Ok([])
    else
      match DecodeRows(shape, rows[..|rows| - 1])
      case Err(e) => Err(e)
      case Ok(front) =>
        match DecodeValue(shape, rows[|rows| - 1])
        case Err(e) => Err(e)
        case Ok(last) => Ok(front + [last])
  }

  function ExactWidth(shape: Shape): Option<nat> {
    if shape.Flat? then shape.exact else None
  }

  /** Declared width, width of the first row and width of every row fit the metadata. */
  predicate WidthsFit(shape: Shape, width: nat, t: D.TableValue) {
    var first := if t.rows == [] then t.declaredWidth else |t.rows[0]|;
    && (t.declaredWidth == width || ExactWidth(shape) == Some(t.declaredWidth))
    && (first == width || ExactWidth(shape) == Some(first))
    && forall i :: 0 <= i < |t.rows| ==> |t.rows[i]| == first
  }

  /** A recursive table has no binary row layout, so only an empty one can be decoded. */
  function DecodeTable(p: Parameter, c: Call, t: D.TableValue): Result<Output, OutputError> {
    if p.name in c.recursive then if t.rows == [] then Ok(TableOutput([])) else Err(Undecodable)
    else
      match RowLength(p.shape)
      case Err(_) => Err(Undecodable)
      case Ok(width) =>
        if !WidthsFit(p.shape, width, t) then Err(Undecodable)
        else
          match DecodeRows(p.shape, t.rows)
          case Err(e) => Err(e)
          case Ok(rows) => Ok(TableOutput(rows))
  }

  /** One value of the reply. */
  datatype Entry = ScalarEntry(scalar: D.ScalarValue) | TableEntry(table: D.TableValue) | XrfcEntry(xml: Bytes)

  /** An xRFC value names its parameter inside its XML. */
  function EntryName(e: Entry): Option<Name> {
    match e
    case ScalarEntry(s) => Some(s.name)
    case TableEntry(t) => Some(t.name)
    case XrfcEntry(xml) => X.NameIn(xml)
  }

  predicate Fitting(p: Parameter, e: Entry) {
    match e
    case ScalarEntry(_) => p.usage == Exporting || p.usage == Changing
    case TableEntry(_) => p.usage == Tables
    case XrfcEntry(_) => p.usage == Exporting || p.usage == Changing || p.usage == Tables
  }

  function DecodeEntry(p: Parameter, c: Call, e: Entry): Result<Output, OutputError> {
    match e
    case ScalarEntry(s) => DecodeValue(p.shape, s.value)
    case TableEntry(t) => DecodeTable(p, c, t)
    case XrfcEntry(xml) => if IsDeep(p, c) then Ok(Encoding(xml)) else Err(Undecodable)
  }

  datatype Taken = Taken(output: map<Name, Output>, returned: set<Name>)

  function Take(ps: seq<Parameter>, c: Call, requested: set<Name>, taken: Taken, e: Entry): Result<Taken, OutputError> {
    match EntryName(e)
    case None => Err(Nameless)
    case Some(name) =>
      var seen := taken.(returned := taken.returned + {name});
      if name in taken.returned then Err(Repeated)
      else if name in c.deactivated then Ok(seen)
      else
        match Lookup(ps, name)
        case None => Err(UnknownParameter)
        case Some(p) =>
          if !Fitting(p, e) then Err(WrongDirection)
          else if name !in requested then Ok(seen)
          else
            match DecodeEntry(p, c, e)
            case Err(error) => Err(error)
            case Ok(v) => Ok(seen.(output := taken.output[name := v]))
  }

  function TakeAll(ps: seq<Parameter>, c: Call, requested: set<Name>, start: Taken,
      entries: seq<Entry>): Result<Taken, OutputError>
  {
    if entries == [] then Ok(start)
    else
      match TakeAll(ps, c, requested, start, entries[..|entries| - 1])
      case Err(e) => Err(e)
      case Ok(taken) => Take(ps, c, requested, taken, entries[|entries| - 1])
  }

  predicate IsOutput(p: Parameter) {
    p.usage == Exporting || p.usage == Changing || p.usage == Tables
  }

  function InitialOutput(p: Parameter): Result<Output, OutputError> {
    if p.usage == Tables then Ok(TableOutput([]))
    else if !p.shape.Fixed? then Ok(Encoding(p.initialBytes))
    else
      match S.EncodeScalar(p.shape.kind, InitialFixed(p.shape.kind))
      case Err(_) => Err(Undecodable)
      case Ok(b) => DecodeValue(p.shape, b)
  }

  /** Deactivated outputs get their initial values. */
  function Deactivated(ps: seq<Parameter>, c: Call): Result<map<Name, Output>, OutputError> {
    if ps == [] then Ok(map[])
    else
      var p := ps[|ps| - 1];
      match Deactivated(ps[..|ps| - 1], c)
      case Err(e) => Err(e)
      case Ok(output) =>
        if p.name !in c.deactivated || !IsOutput(p) then Ok(output)
        else
          match InitialOutput(p)
          case Err(e) => Err(e)
          case Ok(v) => Ok(output[p.name := v])
  }

  function SetOf(names: seq<Name>): (r: set<Name>)
    ensures forall x :: x in r <==> x in names
  {
    set x | x in names
  }

  /** The values of a reply in the order in which they are taken. */
  function Entries(reply: D.Reply): seq<Entry> {
    seq(|reply.scalars|, i requires 0 <= i < |reply.scalars| => ScalarEntry(reply.scalars[i]))
      + seq(|reply.tables|, i requires 0 <= i < |reply.tables| => TableEntry(reply.tables[i]))
      + seq(|reply.xrfc|, i requires 0 <= i < |reply.xrfc| => XrfcEntry(reply.xrfc[i].value))
  }

  /** The decoding of the values of a reply; the choices are those of the call, its input is not looked at. */
  function DecodedOutputs(ps: seq<Parameter>, c: Call, entries: seq<Entry>): Result<map<Name, Output>, OutputError> {
    var requested := SetOf(RequestedNames(ps, WithoutInput(c)));
    match Deactivated(ps, c)
    case Err(e) => Err(e)
    case Ok(initial) =>
      match TakeAll(ps, c, requested, Taken(initial, {}), entries)
      case Err(e) => Err(e)
      case Ok(taken) => if requested <= taken.output.Keys then Ok(taken.output) else Err(MissingOutput)
  }

  /** The outputs that the fields of a reply carry. */
  function OutputsOf(ps: seq<Parameter>, c: Call, fields: seq<Field>): Result<map<Name, Output>, OutputError> {
    match D.Decoded(fields)
    case Err(_) => Err(NotAResult)
    case Ok(reply) => DecodedOutputs(ps, c, Entries(reply))
  }

  // ---------------------------------------------------------------- what a successful decode returns

  ghost predicate DeactivatedOutput(ps: seq<Parameter>, c: Call, name: Name) {
    exists i :: 0 <= i < |ps| && ps[i].name == name && IsOutput(ps[i]) && name in c.deactivated
  }

  lemma {:induction false} DeactivatedKeys(ps: seq<Parameter>, c: Call)
    requires Deactivated(ps, c).Ok?
    ensures forall name :: name in Deactivated(ps, c).value <==> DeactivatedOutput(ps, c, name)
  {
    if ps != [] {
      var n := |ps| - 1;
      DeactivatedKeys(ps[..n], c);
      forall name ensures name in Deactivated(ps, c).value <==> DeactivatedOutput(ps, c, name) {
        if DeactivatedOutput(ps[..n], c, name) {
          var i :| 0 <= i < |ps[..n]| && ps[..n][i].name == name && IsOutput(ps[..n][i]) && name in c.deactivated;
          assert ps[i] == ps[..n][i];
        }
        if DeactivatedOutput(ps, c, name) {
          var i :| 0 <= i < |ps| && ps[i].name == name && IsOutput(ps[i]) && name in c.deactivated;
          assert i < n ==> ps[..n][i] == ps[i];
        }
      }
    }
  }

  lemma {:induction false} RequestedAreNotDeactivated(ps: seq<Parameter>, c: Call, name: Name)
    requires name in RequestedNames(ps, c)
    ensures name !in c.deactivated
  {
    if ps != [] && name in RequestedNames(ps[..|ps| - 1], c) {
      RequestedAreNotDeactivated(ps[..|ps| - 1], c, name);
    }
  }

  /** The value returned under a name is the decoding of the one entry of that name. */
  ghost predicate CameFrom(ps: seq<Parameter>, c: Call, entries: seq<Entry>, name: Name, v: Output) {
    exists i :: 0 <= i < |entries| && EntryName(entries[i]) == Some(name) && Lookup(ps, name).Some?
                && DecodeEntry(Lookup(ps, name).value, c, entries[i]) == Ok(v)
  }

  /** No two values name the same parameter, and all name one. */
  ghost predicate NamesDistinct(entries: seq<Entry>) {
    && (forall i :: 0 <= i < |entries| ==> EntryName(entries[i]).Some?)
    && (forall i, j :: 0 <= i < j < |entries| ==> EntryName(entries[i]) != EntryName(entries[j]))
  }

  ghost predicate TakenSound(ps: seq<Parameter>, c: Call, requested: set<Name>, initial: map<Name, Output>,
      entries: seq<Entry>, taken: Taken)
  {
    && (forall name :: name in initial && name !in requested ==> name in taken.output && taken.output[name] == initial[name])
    && (forall name :: name in taken.output ==> name in initial || name in requested)
    && (forall name :: name in taken.output && name !in initial ==> CameFrom(ps, c, entries, name, taken.output[name]))
    && (forall name :: name in taken.returned <==> exists i :: 0 <= i < |entries| && EntryName(entries[i]) == Some(name))
    && NamesDistinct(entries)
  }

  lemma {:induction false} CameFromMore(ps: seq<Parameter>, c: Call, entries: seq<Entry>, e: Entry, name: Name, v: Output)
    requires CameFrom(ps, c, entries, name, v)
    ensures CameFrom(ps, c, entries + [e], name, v)
  {
    var i :| 0 <= i < |entries| && EntryName(entries[i]) == Some(name) && Lookup(ps, name).Some?
             && DecodeEntry(Lookup(ps, name).value, c, entries[i]) == Ok(v);
    assert (entries + [e])[i] == entries[i];
  }

  lemma {:induction false} TakingOneIsSound(
    ps: seq<Parameter>, c: Call, requested: set<Name>, initial: map<Name, Output>, entries: seq<Entry>, taken: Taken, e: Entry)
    requires TakenSound(ps, c, requested, initial, entries, taken) && Take(ps, c, requested, taken, e).Ok?
    requires forall name :: name in initial ==> name in c.deactivated
    ensures TakenSound(ps, c, requested, initial, entries + [e], Take(ps, c, requested, taken, e).value)
  {
    var after := Take(ps, c, requested, taken, e).value;
    var all := entries + [e];
    assert all[|entries|] == e;
    forall name | name in after.output && name !in initial ensures CameFrom(ps, c, all, name, after.output[name]) {
      if name in taken.output && taken.output[name] == after.output[name] {
        CameFromMore(ps, c, entries, e, name, after.output[name]);
      } else {
        assert EntryName(all[|entries|]) == Some(name);
      }
    }
    forall name ensures name in after.returned <==> exists i :: 0 <= i < |all| && EntryName(all[i]) == Some(name) {
      if name in taken.returned {
        var i :| 0 <= i < |entries| && EntryName(entries[i]) == Some(name);
        assert all[i] == entries[i];
      }
    }
    forall i, j | 0 <= i < j < |all| ensures EntryName(all[i]) != EntryName(all[j]) {
      if j == |entries| {
        assert all[i] == entries[i];
      }
    }
  }

  lemma {:induction false} TakingAllIsSound(
    ps: seq<Parameter>, c: Call, requested: set<Name>, initial: map<Name, Output>, entries: seq<Entry>)
    requires TakeAll(ps, c, requested, Taken(initial, {}), entries).Ok?
    requires forall name :: name in initial ==> name in c.deactivated
    ensures TakenSound(ps, c, requested, initial, entries, TakeAll(ps, c, requested, Taken(initial, {}), entries).value)
  {
    if entries != [] {
      var n := |entries| - 1;
      TakingAllIsSound(ps, c, requested, initial, entries[..n]);
      TakingOneIsSound(ps, c, requested, initial, entries[..n], TakeAll(ps, c, requested, Taken(initial, {}), entries[..n]).value, entries[n]);
      assert entries[..n] + [entries[n]] == entries;
    }
  }

  lemma {:induction false} ValuesReturnTheSelection(ps: seq<Parameter>, c: Call, entries: seq<Entry>)
    requires DecodedOutputs(ps, c, entries).Ok?
    ensures
      var output := DecodedOutputs(ps, c, entries).value;
      && (forall name :: name in output <==> name in RequestedNames(ps, WithoutInput(c)) || DeactivatedOutput(ps, c, name))
      && (forall name :: name in RequestedNames(ps, WithoutInput(c)) ==> CameFrom(ps, c, entries, name, output[name]))
      && (forall name :: DeactivatedOutput(ps, c, name) ==>
            Deactivated(ps, c).Ok? && name in Deactivated(ps, c).value && output[name] == Deactivated(ps, c).value[name])
      && NamesDistinct(entries)
  {
    var requested := SetOf(RequestedNames(ps, WithoutInput(c)));
    var initial := Deactivated(ps, c).value;
    DeactivatedKeys(ps, c);
    forall name | name in requested ensures name !in c.deactivated {
      RequestedAreNotDeactivated(ps, WithoutInput(c), name);
    }
    TakingAllIsSound(ps, c, requested, initial, entries);
  }

  /**
   * Fields that decode carry a reply whose values all belong to different parameters, and give
   * exactly the requested outputs and the deactivated output parameters: each requested one
   * decoded from the reply's only value of that name, each deactivated one with its initial value.
   */
  lemma {:induction false} DecodeReturnsExactlyTheSelection(ps: seq<Parameter>, c: Call, fields: seq<Field>)
    requires OutputsOf(ps, c, fields).Ok?
    ensures
      var output := OutputsOf(ps, c, fields).value;
      && D.Decoded(fields).Ok?
      && (forall name :: name in output <==> name in RequestedNames(ps, WithoutInput(c)) || DeactivatedOutput(ps, c, name))
      && (forall name :: name in RequestedNames(ps, WithoutInput(c)) ==>
            CameFrom(ps, c, Entries(D.Decoded(fields).value), name, output[name]))
      && (forall name :: DeactivatedOutput(ps, c, name) ==>
            Deactivated(ps, c).Ok? && name in Deactivated(ps, c).value && output[name] == Deactivated(ps, c).value[name])
      && NamesDistinct(Entries(D.Decoded(fields).value))
  {
    ValuesReturnTheSelection(ps, c, Entries(D.Decoded(fields).value));
  }

  /** Together with the request: a reply that decodes carries every output the request named. */
  lemma {:induction false} DecodedOutputsAreTheRequested(
    ps: seq<Parameter>, input: map<Name, Value>, o: Options, plan: Plan, fields: seq<Field>, name: Name)
    requires Captured(ps, input, o).Ok? && Built(ps, Captured(ps, input, o).value, plan).Ok?
    requires OutputsOf(ps, Captured(ps, input, o).value, fields).Ok?
    ensures
      var c := Captured(ps, input, o).value;
      name in OutputsOf(ps, c, fields).value <==> name in Built(ps, c, plan).value.outputs || DeactivatedOutput(ps, c, name)
  {
    var c := Captured(ps, input, o).value;
    CaptureMakesSelectionsAgree(ps, input, o);
    RequestAsksForSelection(ps, c, plan);
    DecodeReturnsExactlyTheSelection(ps, c, fields);
  }
}
