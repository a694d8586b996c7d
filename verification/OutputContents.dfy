/**
 * What decoding a reply returns, said of its values directly: which replies are accepted, and which
 * value every output has.
 */
module OutputContents {
  import opened Text
  import opened Wrappers
  import opened ClassicResult
  import opened Invocation
  import opened RequestedOutputs
  import opened WireForms
  import D = ClassicDecoder
  import S = Scalars

  // ---------------------------------------------------------------- single values

  /** The value that the bytes of a parameter or of a row stand for. */
  ghost predicate DecodesTo(shape: Shape, b: Bytes, v: Output) {
    match shape
    case Fixed(kind) => v.ScalarOutput? && IsDecoded(kind, b, v.value)
    case Decimal(width) => |b| == width && v == Encoding(b)
    case Flat(width, exact) => (|b| == width || exact == Some(|b|)) && v == Encoding(b)
    case Deep | Unresolved => false
  }

  lemma {:induction false} ValueDecodesTo(shape: Shape, b: Bytes, v: Output)
    ensures DecodeValue(shape, b) == Ok(v) <==> DecodesTo(shape, b, v)
  {
    if shape.Fixed? && v.ScalarOutput? {
      DecodedIff(shape.kind, b, v.value);
    }
  }

  /** How wide the rows of a table are. */
  predicate IsRowWidth(shape: Shape, width: nat) {
    match shape
    case Fixed(kind) =>
      (match kind
       case Char(characters) => width == 2 * characters
       case Numc(characters) => width == 2 * characters
       case Date => width == 16
       case Time => width == 12
       case Raw(bytes) => width == bytes
       case Int1 => width == 1
       case Int2 => width == 2
       case Int4 => width == 4
       case Int8(_) => width == 8
       case AbapString | XString => false)
    case Decimal(w) => width == w
    case Flat(w, _) => width == w
    case Deep | Unresolved => false
  }

  /** The width of the metadata, or the one without padding between the fields. */
  predicate IsWidth(shape: Shape, width: nat, given: nat) {
    given == width || (shape.Flat? && shape.exact == Some(given))
  }

  /** The declared width and that of the rows, all alike, fit the metadata, and row i is decoded to value i. */
  ghost predicate RowsDecodeTo(shape: Shape, t: D.TableValue, values: seq<Output>) {
    && AllDecodeTo(shape, t.rows, values)
    && exists width: nat :: IsRowWidth(shape, width) && IsWidth(shape, width, t.declaredWidth) && AllOfWidth(shape, width, t.rows)
  }

  predicate AllOfWidth(shape: Shape, width: nat, rows: seq<Bytes>) {
    forall i :: 0 <= i < |rows| ==> |rows[i]| == |rows[0]| && IsWidth(shape, width, |rows[0]|)
  }

  ghost predicate TableDecodesTo(p: Parameter, c: Call, t: D.TableValue, v: Output) {
    && v.TableOutput?
    && if p.name in c.recursive then t.rows == [] && v.rows == [] else RowsDecodeTo(p.shape, t, v.rows)
  }

  lemma {:induction false} RowLengthIs(shape: Shape, width: nat)
    ensures RowLength(shape) == Ok(width) <==> IsRowWidth(shape, width)
  {}

  ghost predicate AllDecodeTo(shape: Shape, rows: seq<Bytes>, values: seq<Output>) {
    |values| == |rows| && forall i :: 0 <= i < |rows| ==> DecodesTo(shape, rows[i], values[i])
  }

  lemma {:induction false} OneMoreDecodes(shape: Shape, rows: seq<Bytes>, row: Bytes, values: seq<Output>, value: Output)
    ensures |values| == |rows| ==>
              (AllDecodeTo(shape, rows + [row], values + [value]) <==> AllDecodeTo(shape, rows, values) && DecodesTo(shape, row, value))
  {
    var all, results := rows + [row], values + [value];
    if |values| == |rows| {
      assert all[|rows|] == row && results[|rows|] == value;
      assert forall i :: 0 <= i < |rows| ==> all[i] == rows[i] && results[i] == values[i];
    }
  }

  lemma {:induction false} DecodedRowsDecode(shape: Shape, rows: seq<Bytes>)
    requires DecodeRows(shape, rows).Ok?
    ensures AllDecodeTo(shape, rows, DecodeRows(shape, rows).value)
    decreases |rows|
  {
    if rows != [] {
      var n := |rows| - 1;
      DecodedRowsDecode(shape, rows[..n]);
      var front, last := DecodeRows(shape, rows[..n]).value, DecodeValue(shape, rows[n]).value;
      ValueDecodesTo(shape, rows[n], last);
      OneMoreDecodes(shape, rows[..n], rows[n], front, last);
      assert rows == rows[..n] + [rows[n]];
    }
  }

  lemma {:induction false} DecodingRowsAreDecoded(shape: Shape, rows: seq<Bytes>, values: seq<Output>)
    requires AllDecodeTo(shape, rows, values)
    ensures DecodeRows(shape, rows) == Ok(values)
    decreases |rows|
  {
    if rows != [] {
      var n := |rows| - 1;
      assert AllDecodeTo(shape, rows[..n], values[..n]);
      DecodingRowsAreDecoded(shape, rows[..n], values[..n]);
      ValueDecodesTo(shape, rows[n], values[n]);
      assert values == values[..n] + [values[n]];
    }
  }

  lemma {:induction false} RowsDecoded(shape: Shape, rows: seq<Bytes>, values: seq<Output>)
    ensures DecodeRows(shape, rows) == Ok(values) <==> AllDecodeTo(shape, rows, values)
  {
    if DecodeRows(shape, rows).Ok? {
      DecodedRowsDecode(shape, rows);
    }
    if AllDecodeTo(shape, rows, values) {
      DecodingRowsAreDecoded(shape, rows, values);
    }
  }

  lemma {:induction false} WidthsAre(shape: Shape, width: nat, t: D.TableValue)
    ensures WidthsFit(shape, width, t) <==> IsWidth(shape, width, t.declaredWidth) && AllOfWidth(shape, width, t.rows)
  {}

  lemma {:induction false} TableDecoded(p: Parameter, c: Call, t: D.TableValue, v: Output)
    ensures DecodeTable(p, c, t) == Ok(v) <==> TableDecodesTo(p, c, t, v)
  {
    if p.name !in c.recursive && v.TableOutput? {
      RowsDecoded(p.shape, t.rows, v.rows);
      forall width: nat ensures RowLength(p.shape) == Ok(width) <==> IsRowWidth(p.shape, width) {
        RowLengthIs(p.shape, width);
      }
      if RowLength(p.shape).Ok? {
        WidthsAre(p.shape, RowLength(p.shape).value, t);
      }
    }
  }

  /** What one value of the reply gives its parameter. */
  ghost predicate Gives(p: Parameter, c: Call, e: Entry, v: Output) {
    match e
    case ScalarEntry(s) => DecodesTo(p.shape, s.value, v)
    case TableEntry(t) => TableDecodesTo(p, c, t, v)
    case XrfcEntry(xml) => (p.name in c.recursive || p.shape.Deep?) && v == Encoding(xml)
  }

  lemma {:induction false} EntryGives(p: Parameter, c: Call, e: Entry, v: Output)
    ensures DecodeEntry(p, c, e) == Ok(v) <==> Gives(p, c, e, v)
  {
    match e
    case ScalarEntry(s) => ValueDecodesTo(p.shape, s.value, v);
    case TableEntry(t) => TableDecoded(p, c, t, v);
    case XrfcEntry(_) =>
  }

  // ---------------------------------------------------------------- which values are taken

  /** The parameter that a name stands for: the last one that bears it. */
  ghost predicate Means(ps: seq<Parameter>, name: Name, p: Parameter) {
    exists i :: 0 <= i < |ps| && ps[i] == p && p.name == name && NoneAfter(ps, i, name)
  }

  ghost predicate NoneAfter(ps: seq<Parameter>, i: nat, name: Name) {
    forall j :: i < j < |ps| ==> ps[j].name != name
  }

  lemma {:induction false} LookedUp(ps: seq<Parameter>, name: Name, p: Parameter)
    ensures Lookup(ps, name) == Some(p) <==> Means(ps, name, p)
  {
    if ps != [] {
      var n := |ps| - 1;
      LookedUp(ps[..n], name, p);
      if ps[n].name == name {
        assert ps[n] == p ==> NoneAfter(ps, n, name);
      } else {
        if Means(ps, name, p) {
          var i :| 0 <= i < |ps| && ps[i] == p && p.name == name && NoneAfter(ps, i, name);
          assert ps[..n][i] == p && NoneAfter(ps[..n], i, name);
        }
        if Means(ps[..n], name, p) {
          var i :| 0 <= i < n && ps[..n][i] == p && p.name == name && NoneAfter(ps[..n], i, name);
          assert forall j :: i < j < n ==> ps[j] == ps[..n][j];
          assert ps[i] == p && NoneAfter(ps, i, name);
        }
      }
    }
  }

  /** Exports and changing parameters come as scalars or in xRFC, tables as tables or in xRFC. */
  predicate MayBring(p: Parameter, e: Entry) {
    match p.usage
    case Exporting | Changing => e.ScalarEntry? || e.XrfcEntry?
    case Tables => e.TableEntry? || e.XrfcEntry?
    case Importing | OtherUsage => false
  }

  /** The reply is asked for some parameter of this name; the input does not matter any more. */
  ghost predicate Wanted(ps: seq<Parameter>, c: Call, name: Name) {
    exists i :: 0 <= i < |ps| && ps[i].name == name && IsAsked(ps[i], c)
  }

  predicate IsAsked(p: Parameter, c: Call) {
    && p.name !in c.deactivated
    && (p.usage.Exporting? || p.usage.Tables? || (p.usage.Changing? && (!p.optional || p.name in c.activated)))
  }

  lemma {:induction false} RequestedIsWanted(ps: seq<Parameter>, c: Call, name: Name)
    ensures name in RequestedNames(ps, WithoutInput(c)) <==> Wanted(ps, c, name)
  {
    if ps != [] {
      var n := |ps| - 1;
      RequestedIsWanted(ps[..n], c, name);
      assert RequestsOutput(ps[n], WithoutInput(c)) <==> IsAsked(ps[n], c);
      if Wanted(ps[..n], c, name) {
        var i :| 0 <= i < n && ps[..n][i].name == name && IsAsked(ps[..n][i], c);
        assert ps[i] == ps[..n][i];
      }
      if Wanted(ps, c, name) {
        var i :| 0 <= i < |ps| && ps[i].name == name && IsAsked(ps[i], c);
        assert i < n ==> ps[..n][i] == ps[i];
      }
    }
  }

  /** A value is accepted if its name is deactivated, or a parameter of its name may be brought by it and, if wanted, is decoded. */
  ghost predicate Accepted(ps: seq<Parameter>, c: Call, e: Entry) {
    EntryName(e).Some? &&
    var name := EntryName(e).value;
    name in c.deactivated || exists p :: Means(ps, name, p) && MayBring(p, e) && (Wanted(ps, c, name) ==> exists v :: Gives(p, c, e, v))
  }

  /** What is taken of one value. */
  lemma {:induction false} TakenIff(ps: seq<Parameter>, c: Call, requested: set<Name>, taken: Taken, e: Entry)
    requires forall name :: name in requested <==> Wanted(ps, c, name)
    ensures Take(ps, c, requested, taken, e).Ok? <==> Accepted(ps, c, e) && EntryName(e).value !in taken.returned
  {
    if EntryName(e).Some? {
      var name := EntryName(e).value;
      forall p ensures Lookup(ps, name) == Some(p) <==> Means(ps, name, p) {
        LookedUp(ps, name, p);
      }
      if Lookup(ps, name).Some? {
        var p := Lookup(ps, name).value;
        assert Fitting(p, e) <==> MayBring(p, e);
        forall v ensures DecodeEntry(p, c, e) == Ok(v) <==> Gives(p, c, e, v) {
          EntryGives(p, c, e, v);
        }
      }
    }
  }

  lemma {:induction false} TakenGives(ps: seq<Parameter>, c: Call, requested: set<Name>, taken: Taken, e: Entry)
    requires Take(ps, c, requested, taken, e).Ok? && forall name :: name in requested ==> name !in c.deactivated
    ensures
      var after := Take(ps, c, requested, taken, e).value;
      var name := EntryName(e).value;
      && EntryName(e).Some? && after.returned == taken.returned + {name}
      && if name in requested then
           && after.output.Keys == taken.output.Keys + {name}
           && (forall other :: other in taken.output && other != name ==> after.output[other] == taken.output[other])
           && exists p :: Means(ps, name, p) && Gives(p, c, e, after.output[name])
         else after.output == taken.output
  {
    var name := EntryName(e).value;
    if name in requested {
      var p := Lookup(ps, name).value;
      LookedUp(ps, name, p);
      EntryGives(p, c, e, DecodeEntry(p, c, e).value);
    }
  }

  // ---------------------------------------------------------------- initial values

  function Zeros(count: nat): (r: Units)
    ensures |r| == count && forall i :: 0 <= i < count ==> r[i] == 0x30
  {
    if count == 0 then [] else Zeros(count - 1) + [0x30]
  }

  function ZeroBytes(count: nat): (r: Bytes)
    ensures |r| == count && forall i :: 0 <= i < count ==> r[i] == 0
  {
    if count == 0 then [] else ZeroBytes(count - 1) + [0]
  }

  /** Empty text and bytes, zeros in numbers, dates and times, and no rows. */
  predicate IsInitialOutput(p: Parameter, v: Output) {
    if p.usage.Tables? then v == TableOutput([])
    else if !p.shape.Fixed? then v == Encoding(p.initialBytes)
    else
      v.ScalarOutput? &&
      match p.shape.kind
      case Char(width) => width <= 0x7FFF && v.value == S.TextValue([])
      case Numc(width) => width <= 0x7FFF && v.value == S.TextValue(Zeros(width))
      case Date => v.value == S.TextValue(Zeros(8))
      case Time => v.value == S.TextValue(Zeros(6))
      case Raw(width) => v.value == S.BytesValue(ZeroBytes(width))
      case AbapString => v.value == S.TextValue([])
      case XString => v.value == S.BytesValue([])
      case Int1 | Int2 | Int4 | Int8(_) => v.value == S.IntegerValue(0)
  }

  lemma {:induction false} InitialIs(p: Parameter, v: Output)
    ensures InitialOutput(p) == Ok(v) <==> IsInitialOutput(p, v)
  {
    if !p.usage.Tables? && p.shape.Fixed? {
      var kind, initial := p.shape.kind, InitialFixed(p.shape.kind);
      InitialEncodable(kind);
      if S.EncodeScalar(kind, initial).Ok? {
        S.RoundTrip(kind, initial);
        InitialComesBack(kind);
      }
    }
  }

  lemma {:induction false} InitialEncodable(kind: S.Kind)
    ensures S.EncodeScalar(kind, InitialFixed(kind)).Ok? <==> (kind.Char? || kind.Numc? ==> kind.width <= 0x7FFF)
  {
    EncodedIff(kind, InitialFixed(kind));
    assert IsWellFormed([]);
    if kind.Date? {
      assert IsCalendar(kind, S.Repeat(0x30, 8));
    } else if kind.Time? {
      assert IsCalendar(kind, S.Repeat(0x30, 6));
    }
  }

  lemma {:induction false} InitialComesBack(kind: S.Kind)
    ensures S.Canonical(kind, InitialFixed(kind)) ==
            match kind
            case Char(_) | AbapString => S.TextValue([])
            case Numc(width) => S.TextValue(Zeros(width))
            case Date => S.TextValue(Zeros(8))
            case Time => S.TextValue(Zeros(6))
            case Raw(width) => S.BytesValue(ZeroBytes(width))
            case XString => S.BytesValue([])
            case Int1 | Int2 | Int4 | Int8(_) => S.IntegerValue(0)
  {
    if kind.Numc? {
      assert S.Repeat(0x30, kind.width) + [] == Zeros(kind.width);
    } else if kind.Date? {
      assert S.Repeat<CodeUnit>(0x30, 8) == Zeros(8) && Zeros(8)[0] in Zeros(8);
    } else if kind.Time? {
      assert S.Repeat<CodeUnit>(0x30, 6) == Zeros(6) && Zeros(6)[0] in Zeros(6);
    } else if kind.Raw? {
      assert [] + S.Repeat<Byte>(0, kind.width) == ZeroBytes(kind.width);
    }
  }

  /** A deactivated parameter that could have been an output. */
  predicate IsLeftOut(p: Parameter, c: Call) {
    p.name in c.deactivated && (p.usage.Exporting? || p.usage.Changing? || p.usage.Tables?)
  }

  /** The last deactivated output of that name. */
  ghost predicate LeavesOut(ps: seq<Parameter>, c: Call, name: Name, p: Parameter) {
    exists i :: 0 <= i < |ps| && ps[i] == p && p.name == name && IsLeftOut(p, c) && NoneLeftOutAfter(ps, c, i, name)
  }

  ghost predicate NoneLeftOutAfter(ps: seq<Parameter>, c: Call, i: nat, name: Name) {
    forall j :: i < j < |ps| ==> !(ps[j].name == name && IsLeftOut(ps[j], c))
  }

  ghost predicate HasInitials(ps: seq<Parameter>, c: Call) {
    forall i :: 0 <= i < |ps| && IsLeftOut(ps[i], c) ==> exists v :: IsInitialOutput(ps[i], v)
  }

  /** The outputs that are left out, with their initial values. */
  ghost predicate AreInitials(ps: seq<Parameter>, c: Call, initial: map<Name, Output>) {
    && (forall name :: name in initial <==> exists p :: LeavesOut(ps, c, name, p))
    && (forall name, p :: LeavesOut(ps, c, name, p) ==> name in initial && IsInitialOutput(p, initial[name]))
  }

  lemma {:induction false} LeftOutMore(ps: seq<Parameter>, c: Call, last: Parameter, name: Name, p: Parameter)
    ensures LeavesOut(ps + [last], c, name, p) <==>
            if last.name == name && IsLeftOut(last, c) then p == last else LeavesOut(ps, c, name, p)
  {
    var all, n := ps + [last], |ps|;
    if LeavesOut(all, c, name, p) {
      var i :| 0 <= i < |all| && all[i] == p && p.name == name && IsLeftOut(p, c) && NoneLeftOutAfter(all, c, i, name);
      if last.name == name && IsLeftOut(last, c) {
        assert all[n] == last;
      } else {
        assert ps[i] == p && forall j :: i < j < n ==> all[j] == ps[j];
        assert NoneLeftOutAfter(ps, c, i, name);
      }
    }
    if last.name == name && IsLeftOut(last, c) {
      assert all[n] == last && NoneLeftOutAfter(all, c, n, name);
    } else if LeavesOut(ps, c, name, p) {
      var i :| 0 <= i < |ps| && ps[i] == p && p.name == name && IsLeftOut(p, c) && NoneLeftOutAfter(ps, c, i, name);
      assert all[i] == p && NoneLeftOutAfter(all, c, i, name);
    }
  }

  lemma {:induction false} InitialsAre(ps: seq<Parameter>, c: Call)
    ensures Deactivated(ps, c).Ok? <==> HasInitials(ps, c)
    ensures Deactivated(ps, c).Ok? ==> AreInitials(ps, c, Deactivated(ps, c).value)
  {
    if ps != [] {
      var n := |ps| - 1;
      var front, last := ps[..n], ps[n];
      InitialsAre(front, c);
      assert ps == front + [last];
      HasInitialsMore(front, last, c);
      forall v ensures InitialOutput(last) == Ok(v) <==> IsInitialOutput(last, v) {
        InitialIs(last, v);
      }
      if Deactivated(ps, c).Ok? {
        InitialsMore(front, last, c, Deactivated(front, c).value, Deactivated(ps, c).value);
      }
    }
  }

  lemma {:induction false} HasInitialsMore(ps: seq<Parameter>, last: Parameter, c: Call)
    ensures HasInitials(ps + [last], c) <==> HasInitials(ps, c) && (IsLeftOut(last, c) ==> exists v :: IsInitialOutput(last, v))
  {
    var all := ps + [last];
    assert all[|ps|] == last && forall i :: 0 <= i < |ps| ==> all[i] == ps[i];
    if HasInitials(all, c) {
      forall i | 0 <= i < |ps| && IsLeftOut(ps[i], c) ensures exists v :: IsInitialOutput(ps[i], v) {
        assert all[i] == ps[i];
      }
    }
  }

  lemma {:induction false} InitialsMore(ps: seq<Parameter>, last: Parameter, c: Call, before: map<Name, Output>, after: map<Name, Output>)
    requires AreInitials(ps, c, before)
    requires if IsLeftOut(last, c)
             then last.name in after && after == before[last.name := after[last.name]] && IsInitialOutput(last, after[last.name])
             else after == before
    ensures AreInitials(ps + [last], c, after)
  {
    forall name, p
      ensures LeavesOut(ps + [last], c, name, p) <==>
              if last.name == name && IsLeftOut(last, c) then p == last else LeavesOut(ps, c, name, p)
    {
      LeftOutMore(ps, c, last, name, p);
    }
    forall name ensures name in after <==> exists p :: LeavesOut(ps + [last], c, name, p) {
      if last.name == name && IsLeftOut(last, c) {
        assert LeavesOut(ps + [last], c, name, last);
      } else {
        assert forall p :: LeavesOut(ps + [last], c, name, p) <==> LeavesOut(ps, c, name, p);
      }
    }
  }

  // ---------------------------------------------------------------- the whole reply

  /** Some value of the reply bears the name. */
  ghost predicate Returned(entries: seq<Entry>, name: Name) {
    exists i :: 0 <= i < |entries| && EntryName(entries[i]) == Some(name)
  }

  /** The value of an output is what a value of its name in the reply gives its parameter. */
  ghost predicate ComesFrom(ps: seq<Parameter>, c: Call, entries: seq<Entry>, name: Name, v: Output) {
    exists i, p :: 0 <= i < |entries| && EntryName(entries[i]) == Some(name) && Means(ps, name, p) && Gives(p, c, entries[i], v)
  }

  ghost predicate AllAccepted(ps: seq<Parameter>, c: Call, entries: seq<Entry>) {
    NamesDistinct(entries) && forall i :: 0 <= i < |entries| ==> Accepted(ps, c, entries[i])
  }

  /** The values taken so far, over what was there before. */
  ghost predicate IsTaken(ps: seq<Parameter>, c: Call, initial: map<Name, Output>, entries: seq<Entry>, taken: Taken) {
    && (forall name :: name in taken.returned <==> Returned(entries, name))
    && (forall name :: name in taken.output <==> name in initial || (Wanted(ps, c, name) && Returned(entries, name)))
    && (forall name :: name in taken.output ==>
          if Wanted(ps, c, name) && Returned(entries, name) then ComesFrom(ps, c, entries, name, taken.output[name])
          else name in initial && taken.output[name] == initial[name])
  }

  lemma {:induction false} ReturnedMore(entries: seq<Entry>, e: Entry, name: Name)
    ensures Returned(entries + [e], name) <==> Returned(entries, name) || EntryName(e) == Some(name)
  {
    var all := entries + [e];
    assert all[|entries|] == e;
    if Returned(entries, name) {
      var i :| 0 <= i < |entries| && EntryName(entries[i]) == Some(name);
      assert all[i] == entries[i];
    }
  }

  lemma {:induction false} ComesFromMore(ps: seq<Parameter>, c: Call, entries: seq<Entry>, e: Entry, name: Name, v: Output)
    ensures ComesFrom(ps, c, entries, name, v) ==> ComesFrom(ps, c, entries + [e], name, v)
    ensures forall p :: EntryName(e) == Some(name) && Means(ps, name, p) && Gives(p, c, e, v) ==> ComesFrom(ps, c, entries + [e], name, v)
  {
    var all := entries + [e];
    assert all[|entries|] == e;
    if ComesFrom(ps, c, entries, name, v) {
      var i, p :| 0 <= i < |entries| && EntryName(entries[i]) == Some(name) && Means(ps, name, p) && Gives(p, c, entries[i], v);
      assert all[i] == entries[i];
    }
  }

  lemma {:induction false} AcceptedMore(ps: seq<Parameter>, c: Call, entries: seq<Entry>, e: Entry)
    ensures AllAccepted(ps, c, entries + [e]) <==>
            AllAccepted(ps, c, entries) && Accepted(ps, c, e) && !Returned(entries, EntryName(e).value)
  {
    var all := entries + [e];
    assert all[|entries|] == e && forall i :: 0 <= i < |entries| ==> all[i] == entries[i];
    if AllAccepted(ps, c, all) {
      assert Accepted(ps, c, all[|entries|]);
      forall i | 0 <= i < |entries| ensures Accepted(ps, c, entries[i]) && EntryName(entries[i]) != EntryName(e) && EntryName(entries[i]).Some? {
        assert Accepted(ps, c, all[i]) && EntryName(all[i]) != EntryName(all[|entries|]);
      }
      assert forall i, j :: 0 <= i < j < |entries| ==> EntryName(all[i]) != EntryName(all[j]);
    }
  }

  lemma {:induction false} OneMoreTaken(ps: seq<Parameter>, c: Call, requested: set<Name>, initial: map<Name, Output>, entries: seq<Entry>,
      taken: Taken, e: Entry)
    requires IsTaken(ps, c, initial, entries, taken) && Take(ps, c, requested, taken, e).Ok?
    requires forall name :: (name in requested <==> Wanted(ps, c, name)) && (name in requested ==> name !in c.deactivated)
    ensures IsTaken(ps, c, initial, entries + [e], Take(ps, c, requested, taken, e).value)
  {
    var after := Take(ps, c, requested, taken, e).value;
    TakenGives(ps, c, requested, taken, e);
    forall name ensures Returned(entries + [e], name) <==> Returned(entries, name) || EntryName(e) == Some(name) {
      ReturnedMore(entries, e, name);
    }
    forall name | name in after.output && Wanted(ps, c, name) && Returned(entries + [e], name)
      ensures ComesFrom(ps, c, entries + [e], name, after.output[name])
    {
      ComesFromMore(ps, c, entries, e, name, after.output[name]);
    }
  }

  lemma {:induction false} AllTaken(ps: seq<Parameter>, c: Call, requested: set<Name>, initial: map<Name, Output>, entries: seq<Entry>)
    requires forall name :: (name in requested <==> Wanted(ps, c, name)) && (name in requested ==> name !in c.deactivated)
    ensures TakeAll(ps, c, requested, Taken(initial, {}), entries).Ok? <==> AllAccepted(ps, c, entries)
    ensures AllAccepted(ps, c, entries) ==>
              IsTaken(ps, c, initial, entries, TakeAll(ps, c, requested, Taken(initial, {}), entries).value)
  {
    if entries != [] {
      var n := |entries| - 1;
      AllTaken(ps, c, requested, initial, entries[..n]);
      AcceptedMore(ps, c, entries[..n], entries[n]);
      assert entries == entries[..n] + [entries[n]];
      if TakeAll(ps, c, requested, Taken(initial, {}), entries[..n]).Ok? {
        var taken := TakeAll(ps, c, requested, Taken(initial, {}), entries[..n]).value;
        TakenIff(ps, c, requested, taken, entries[n]);
        if Take(ps, c, requested, taken, entries[n]).Ok? {
          OneMoreTaken(ps, c, requested, initial, entries[..n], taken, entries[n]);
        }
      }
    }
  }

  /** Exactly the wanted outputs, each from its value in the reply, and those left out, with their initial values. */
  ghost predicate AreOutputs(ps: seq<Parameter>, c: Call, entries: seq<Entry>, output: map<Name, Output>) {
    && (forall name :: name in output <==> Wanted(ps, c, name) || exists p :: LeavesOut(ps, c, name, p))
    && (forall name :: Wanted(ps, c, name) ==> ComesFrom(ps, c, entries, name, output[name]))
    && (forall name, p :: LeavesOut(ps, c, name, p) ==> IsInitialOutput(p, output[name]))
  }

  /**
   * A grouped reply is decoded exactly if all of its values are accepted, no name comes twice, every
   * wanted output has come, and what is left out has an initial value. Then these are the outputs.
   */
  lemma {:induction false} DecodedExactly(ps: seq<Parameter>, c: Call, entries: seq<Entry>)
    ensures DecodedOutputs(ps, c, entries).Ok? <==>
            AllAccepted(ps, c, entries) && HasInitials(ps, c) && forall name :: Wanted(ps, c, name) ==> Returned(entries, name)
    ensures DecodedOutputs(ps, c, entries).Ok? ==> AreOutputs(ps, c, entries, DecodedOutputs(ps, c, entries).value)
  {
    var requested := SetOf(RequestedNames(ps, WithoutInput(c)));
    InitialsAre(ps, c);
    forall name ensures (name in requested <==> Wanted(ps, c, name)) && (name in requested ==> name !in c.deactivated) {
      RequestedIsWanted(ps, c, name);
    }
    if HasInitials(ps, c) {
      var initial := Deactivated(ps, c).value;
      AllTaken(ps, c, requested, initial, entries);
      if AllAccepted(ps, c, entries) {
        WantedHaveCome(ps, c, requested, initial, entries, TakeAll(ps, c, requested, Taken(initial, {}), entries).value);
      }
    }
  }

  lemma {:induction false} WantedHaveCome(ps: seq<Parameter>, c: Call, requested: set<Name>, initial: map<Name, Output>, entries: seq<Entry>,
      taken: Taken)
    requires AreInitials(ps, c, initial) && IsTaken(ps, c, initial, entries, taken)
    requires forall name :: (name in requested <==> Wanted(ps, c, name)) && (name in requested ==> name !in c.deactivated)
    ensures requested <= taken.output.Keys <==> forall name :: Wanted(ps, c, name) ==> Returned(entries, name)
    ensures requested <= taken.output.Keys ==> AreOutputs(ps, c, entries, taken.output)
  {
    forall name, p | LeavesOut(ps, c, name, p) ensures name in c.deactivated && !Wanted(ps, c, name) {}
    forall name | Wanted(ps, c, name) ensures name in taken.output <==> Returned(entries, name) {
      assert name !in initial;
    }
  }

  // ---------------------------------------------------------------- from the fields of the reply

  /** The values are those of the reply: scalars, tables and xRFC values, one after another. */
  predicate AreValues(reply: D.Reply, entries: seq<Entry>) {
    var s, t := |reply.scalars|, |reply.tables|;
    && |entries| == s + t + |reply.xrfc|
    && (forall i :: 0 <= i < s ==> entries[i] == ScalarEntry(reply.scalars[i]))
    && (forall i :: 0 <= i < t ==> entries[s + i] == TableEntry(reply.tables[i]))
    && (forall i :: 0 <= i < |reply.xrfc| ==> entries[s + t + i] == XrfcEntry(reply.xrfc[i].value))
  }

  /**
   * The outputs of a call: the fields must be a reply whose values are accepted, and the outputs are
   * then those of its values; nothing else is returned, and nothing is returned otherwise.
   */
  lemma {:induction false} OutputsMirrorReply(ps: seq<Parameter>, c: Call, fields: seq<Field>) returns (entries: seq<Entry>)
    ensures D.Decoded(fields).Ok? ==> AreValues(D.Decoded(fields).value, entries)
    ensures OutputsOf(ps, c, fields).Ok? <==>
            && D.Decoded(fields).Ok? && AllAccepted(ps, c, entries) && HasInitials(ps, c)
            && forall name :: Wanted(ps, c, name) ==> Returned(entries, name)
    ensures OutputsOf(ps, c, fields).Ok? ==> AreOutputs(ps, c, entries, OutputsOf(ps, c, fields).value)
  {
    entries := if D.Decoded(fields).Ok? then Entries(D.Decoded(fields).value) else [];
    DecodedExactly(ps, c, entries);
  }

  // ---------------------------------------------------------------- capture

  ghost predicate Bears(ps: seq<Parameter>, name: Name) {
    exists i :: 0 <= i < |ps| && ps[i].name == name
  }

  lemma {:induction false} LookupBears(ps: seq<Parameter>, name: Name)
    ensures Lookup(ps, name).Some? <==> Bears(ps, name)
  {
    if ps != [] {
      LookupBears(ps[..|ps| - 1], name);
      if i :| 0 <= i < |ps| && ps[i].name == name && i < |ps| - 1 {
        assert ps[..|ps| - 1][i] == ps[i];
      }
    }
  }

  /** A call is captured exactly if every name it gives is a parameter's, and no export is supplied. What is supplied counts as activated. */
  lemma {:induction false} CapturedExactly(ps: seq<Parameter>, input: map<Name, Value>, o: Options)
    ensures
      var r := Captured(ps, input, o);
      && (r.Ok? <==>
            && (forall name :: name in o.notRequested || name in o.activated || name in o.deactivated || name in input ==> Bears(ps, name))
            && |input| <= |ps|
            && forall name, p :: name in input && Means(ps, name, p) ==> p.usage != Exporting)
      && (r.Ok? ==>
            && r.value.input == input && r.value.recursive == o.recursive
            && (forall name :: name in r.value.activated <==> name in o.activated || name in input)
            && (forall name :: name in r.value.deactivated <==> name in o.deactivated || name in o.notRequested))
  {
    forall name ensures Lookup(ps, name).Some? <==> Bears(ps, name) {
      LookupBears(ps, name);
    }
    forall name, p ensures Lookup(ps, name) == Some(p) <==> Means(ps, name, p) {
      LookedUp(ps, name, p);
    }
  }
}
