/**
 * When the checks for a changed length fire. The measuring pass keeps what it measured under the
 * parameter's name, so a later parameter of the same name takes an earlier one's place; the
 * building pass then holds the earlier one against the later one's measure.
 */
module RepeatedNames {
  import opened Text
  import opened Wrappers
  import opened ClassicResult
  import opened Invocation
  import opened RequestSize
  import S = Scalars

  /** The four places in which a measure is kept. */
  datatype Sort = ScalarSort | DecimalSort | TableSort | DeepSort

  predicate OfSort(p: Parameter, c: Call, sort: Sort) {
    && SendsInput(p, c)
    && match sort
       case TableSort => p.usage == Tables
       case DeepSort => p.usage != Tables && IsDeep(p, c)
       case ScalarSort => p.usage != Tables && !IsDeep(p, c)
       case DecimalSort => p.usage != Tables && !IsDeep(p, c) && p.shape.Decimal?
  }

  /** The last parameter of a name whose measure is kept in one of the places. */
  function Last(ps: seq<Parameter>, c: Call, name: Name, sort: Sort): Option<Parameter> {
    if ps == [] then None
    else if ps[|ps| - 1].name == name && OfSort(ps[|ps| - 1], c, sort) then Some(ps[|ps| - 1])
    else Last(ps[..|ps| - 1], c, name, sort)
  }

  function Sent(p: Parameter, c: Call): Value
    requires SendsInput(p, c)
  {
    ActiveInput(p, c).value
  }

  /** The width of an import as the measuring pass takes it; zero if it cannot be measured. */
  function Width(p: Parameter, c: Call): nat
    requires SendsInput(p, c)
  {
    var width := ValueLength(p.shape, Sent(p, c));
    if width.Ok? then width.value else 0
  }

  function RowWidth(p: Parameter): nat {
    if RowLength(p.shape).Ok? then RowLength(p.shape).value else 0
  }

  function RowsOf(p: Parameter, c: Call): seq<Value>
    requires SendsInput(p, c)
  {
    if Sent(p, c).Rows? then Sent(p, c).rows else []
  }

  function BytesOf(p: Parameter, c: Call): Bytes
    requires SendsInput(p, c)
  {
    if Sent(p, c).Encoded? then Sent(p, c).bytes else []
  }

  // ---------------------------------------------------------------- what the plan holds

  ghost predicate HoldsScalar(plan: Plan, c: Call, name: Name, last: Option<Parameter>) {
    if last.None? then name !in plan.scalarLengths
    else SendsInput(last.value, c) && name in plan.scalarLengths && plan.scalarLengths[name] == Width(last.value, c)
  }

  ghost predicate HoldsDecimal(plan: Plan, c: Call, name: Name, last: Option<Parameter>) {
    if last.None? then name !in plan.scalarEncodings
    else SendsInput(last.value, c) && name in plan.scalarEncodings && plan.scalarEncodings[name] == BytesOf(last.value, c)
  }

  ghost predicate HoldsTable(plan: Plan, c: Call, name: Name, last: Option<Parameter>) {
    if last.None? then name !in plan.rowCounts && name !in plan.rowLengths
    else
      && SendsInput(last.value, c) && name in plan.rowCounts && plan.rowCounts[name] == |RowsOf(last.value, c)|
      && name in plan.rowLengths && plan.rowLengths[name] == RowWidth(last.value)
  }

  /** The measures kept under a name are those of the last parameters of that name. */
  ghost predicate HoldsLast(ps: seq<Parameter>, c: Call, plan: Plan, name: Name) {
    && HoldsScalar(plan, c, name, Last(ps, c, name, ScalarSort))
    && HoldsDecimal(plan, c, name, Last(ps, c, name, DecimalSort))
    && HoldsTable(plan, c, name, Last(ps, c, name, TableSort))
    && (name in plan.xrfcEncodings <==> Last(ps, c, name, DeepSort).Some?)
  }

  lemma {:induction false} PlanHoldsLast(ps: seq<Parameter>, c: Call, name: Name)
    requires PlanOf(ps, c).Ok?
    ensures HoldsLast(ps, c, PlanOf(ps, c).value, name)
  {
    if ps != [] {
      var n := |ps| - 1;
      PlanHoldsLast(ps[..n], c, name);
      MeasuringHoldsLast(ps, c, PlanOf(ps[..n], c).value, name);
    }
  }

  lemma {:induction false} MeasuringHoldsLast(ps: seq<Parameter>, c: Call, before: Plan, name: Name)
    requires ps != [] && HoldsLast(ps[..|ps| - 1], c, before, name) && Measured(before, ps[|ps| - 1], c).Ok?
    ensures HoldsLast(ps, c, Measured(before, ps[|ps| - 1], c).value, name)
  {
    var n := |ps| - 1;
    forall sort: Sort | sort in {ScalarSort, DecimalSort, TableSort, DeepSort}
      ensures Last(ps, c, name, sort) ==
              if ps[n].name == name && OfSort(ps[n], c, sort) then Some(ps[n]) else Last(ps[..n], c, name, sort)
    {}
    RecordingHoldsScalar(before, ps[n], c, name, Last(ps[..n], c, name, ScalarSort));
    RecordingHoldsDecimal(before, ps[n], c, name, Last(ps[..n], c, name, DecimalSort));
    RecordingHoldsTable(before, ps[n], c, name, Last(ps[..n], c, name, TableSort));
    RecordingHoldsDeep(before, ps[n], c, name);
  }

  lemma {:induction false} RecordingHoldsScalar(before: Plan, p: Parameter, c: Call, name: Name, last: Option<Parameter>)
    requires HoldsScalar(before, c, name, last) && Measured(before, p, c).Ok?
    ensures HoldsScalar(Recorded(before, p, c), c, name, if p.name == name && OfSort(p, c, ScalarSort) then Some(p) else last)
  {}

  lemma {:induction false} RecordingHoldsDecimal(before: Plan, p: Parameter, c: Call, name: Name, last: Option<Parameter>)
    requires HoldsDecimal(before, c, name, last) && Measured(before, p, c).Ok?
    ensures HoldsDecimal(Recorded(before, p, c), c, name, if p.name == name && OfSort(p, c, DecimalSort) then Some(p) else last)
  {}

  lemma {:induction false} RecordingHoldsTable(before: Plan, p: Parameter, c: Call, name: Name, last: Option<Parameter>)
    requires HoldsTable(before, c, name, last) && Measured(before, p, c).Ok?
    ensures HoldsTable(Recorded(before, p, c), c, name, if p.name == name && OfSort(p, c, TableSort) then Some(p) else last)
  {}

  lemma {:induction false} RecordingHoldsDeep(before: Plan, p: Parameter, c: Call, name: Name)
    requires Measured(before, p, c).Ok?
    ensures name in Recorded(before, p, c).xrfcEncodings <==>
            name in before.xrfcEncodings || (p.name == name && OfSort(p, c, DeepSort))
  {}

  /** What the measuring pass accepts can be measured. */
  lemma {:induction false} PlanMeasuresEach(ps: seq<Parameter>, c: Call, k: nat)
    requires PlanOf(ps, c).Ok? && k < |ps|
    ensures OutputLengths(ps[k], c).Ok? && InputLengths(ps[k], c).Ok?
    decreases |ps|
  {
    if k < |ps| - 1 {
      PlanMeasuresEach(ps[..|ps| - 1], c, k);
    }
  }

  // ---------------------------------------------------------------- what the building pass says

  /** The rows up to a count exist and encode. */
  ghost predicate RowsEncode(shape: Shape, rows: seq<Value>, count: nat) {
    count <= |rows| && forall i :: 0 <= i < count ==> EncodeValue(shape, rows[i]).Ok?
  }

  /**
   * What the building pass says of a parameter, read off the metadata and the input alone: nothing,
   * that its value does not encode, or that its length has changed. Rows are held against the row
   * width and count of the last table of the name, a scalar against the width of the last scalar
   * of the name; a decimal is sent with the last decimal's encoding.
   */
  ghost function Complaint(ps: seq<Parameter>, c: Call, p: Parameter): Option<RequestError> {
    if !SendsInput(p, c) then None
    else if p.usage == Tables then
      var last := Last(ps, c, p.name, TableSort);
      if last.None? || !SendsInput(last.value, c) then None
      else
        var rows, count := RowsOf(p, c), |RowsOf(last.value, c)|;
        if RowWidth(p) != RowWidth(last.value) then
          if count == 0 then None
          else if rows == [] || EncodeValue(p.shape, rows[0]).Err? then Some(Invalid)
          else Some(LengthChanged)
        else if RowsEncode(p.shape, rows, count) then None
        else Some(Invalid)
    else if Last(ps, c, p.name, DeepSort).Some? then None
    else ScalarComplaint(p, c, Last(ps, c, p.name, ScalarSort), Last(ps, c, p.name, DecimalSort))
  }

  ghost function ScalarComplaint(p: Parameter, c: Call, last: Option<Parameter>, decimal: Option<Parameter>): Option<RequestError>
    requires SendsInput(p, c)
  {
    if last.None? || !SendsInput(last.value, c) then None
    else if p.shape.Decimal? then
      if decimal.Some? && SendsInput(decimal.value, c) && |BytesOf(decimal.value, c)| != Width(last.value, c) then Some(LengthChanged) else None
    else if EncodeValue(p.shape, Sent(p, c)).Err? then Some(Invalid)
    else if Width(p, c) != Width(last.value, c) then Some(LengthChanged)
    else None
  }

  lemma {:induction false} EncodingErrs(shape: Shape, v: Value)
    ensures EncodeValue(shape, v).Err? ==> EncodeValue(shape, v) == Err(Invalid)
  {}

  /** Rows of the measured width are built exactly if they are there and encode. */
  lemma {:induction false} RowsOfMeasuredWidth(shape: Shape, rows: seq<Value>, count: nat)
    requires RowLength(shape).Ok?
    ensures if RowsEncode(shape, rows, count) then EncodeRows(shape, rows, count, RowLength(shape).value).Ok?
            else EncodeRows(shape, rows, count, RowLength(shape).value) == Err(Invalid)
    decreases count
  {
    if count > 0 {
      RowsOfMeasuredWidth(shape, rows, count - 1);
      if count <= |rows| {
        EncodingErrs(shape, rows[count - 1]);
        if EncodeValue(shape, rows[count - 1]).Ok? {
          RowWidthIsFixed(shape, rows[count - 1]);
        }
      }
    }
  }

  /** With any other width the first row decides. */
  lemma {:induction false} RowsOfOtherWidth(shape: Shape, rows: seq<Value>, count: nat, width: nat)
    requires RowLength(shape).Ok? && width != RowLength(shape).value && count > 0
    ensures EncodeRows(shape, rows, count, width) ==
            Err(if rows == [] || EncodeValue(shape, rows[0]).Err? then Invalid else LengthChanged)
    decreases count
  {
    if count > 1 {
      RowsOfOtherWidth(shape, rows, count - 1, width);
    } else {
      assert EncodeRows(shape, rows, 0, width) == Ok([]);
      if rows != [] {
        EncodingErrs(shape, rows[0]);
        if EncodeValue(shape, rows[0]).Ok? {
          RowWidthIsFixed(shape, rows[0]);
        }
      }
    }
  }

  lemma {:induction false} ScalarSaid(ps: seq<Parameter>, c: Call, plan: Plan, p: Parameter)
    requires HoldsLast(ps, c, plan, p.name) && OfSort(p, c, ScalarSort) && InputLengths(p, c).Ok?
    requires Last(ps, c, p.name, ScalarSort).Some? && (p.shape.Decimal? ==> Last(ps, c, p.name, DecimalSort).Some?)
    ensures
      var said := ScalarComplaint(p, c, Last(ps, c, p.name, ScalarSort), Last(ps, c, p.name, DecimalSort));
      if said.Some? then ScalarImport(p, Sent(p, c), plan) == Err(said.value) else ScalarImport(p, Sent(p, c), plan).Ok?
  {
    var v := Sent(p, c);
    EncodingErrs(p.shape, v);
    if EncodeValue(p.shape, v).Ok? {
      ValueLengthIsExact(p.shape, v);
    }
  }

  lemma {:induction false} TableSaid(ps: seq<Parameter>, c: Call, plan: Plan, p: Parameter)
    requires HoldsLast(ps, c, plan, p.name) && OfSort(p, c, TableSort) && InputLengths(p, c).Ok?
    requires Last(ps, c, p.name, TableSort).Some?
    ensures
      var rows := EncodeRows(p.shape, RowsOf(p, c), plan.rowCounts[p.name], plan.rowLengths[p.name]);
      var said := Complaint(ps, c, p);
      if said.Some? then rows == Err(said.value) else rows.Ok?
  {
    var last := Last(ps, c, p.name, TableSort).value;
    var count := |RowsOf(last, c)|;
    if RowWidth(p) == RowWidth(last) {
      RowsOfMeasuredWidth(p.shape, RowsOf(p, c), count);
    } else if count > 0 {
      RowsOfOtherWidth(p.shape, RowsOf(p, c), count, RowWidth(last));
    }
  }

  lemma {:induction false} LastFinds(ps: seq<Parameter>, c: Call, k: nat, sort: Sort)
    requires k < |ps| && OfSort(ps[k], c, sort)
    ensures Last(ps, c, ps[k].name, sort).Some?
  {
    if k < |ps| - 1 {
      LastFinds(ps[..|ps| - 1], c, k, sort);
    }
  }

  /** The building pass stops at a parameter exactly with its complaint. */
  lemma {:induction false} BuildingSays(ps: seq<Parameter>, c: Call, k: nat, request: Request)
    requires PlanOf(ps, c).Ok? && k < |ps|
    ensures
      var said := Complaint(ps, c, ps[k]);
      var added := Added(request, ps[k], c, PlanOf(ps, c).value);
      if said.Some? then added == Err(said.value) else added.Ok?
  {
    var p, plan := ps[k], PlanOf(ps, c).value;
    PlanMeasuresEach(ps, c, k);
    PlanHoldsLast(ps, c, p.name);
    if SendsInput(p, c) {
      if p.usage == Tables {
        LastFinds(ps, c, k, TableSort);
        TableSaid(ps, c, plan, p);
      } else if IsDeep(p, c) {
        LastFinds(ps, c, k, DeepSort);
      } else {
        LastFinds(ps, c, k, ScalarSort);
        if p.shape.Decimal? {
          LastFinds(ps, c, k, DecimalSort);
        }
        ScalarSaid(ps, c, plan, p);
      }
    }
  }

  /** The first complaint about the first n parameters. */
  ghost function FirstComplaint(ps: seq<Parameter>, c: Call, n: nat): Option<RequestError>
    requires n <= |ps|
  {
    if n == 0 then None
    else if FirstComplaint(ps, c, n - 1).Some? then FirstComplaint(ps, c, n - 1)
    else Complaint(ps, c, ps[n - 1])
  }

  lemma {:induction false} BuiltUpTo(ps: seq<Parameter>, c: Call, n: nat)
    requires PlanOf(ps, c).Ok? && n <= |ps|
    ensures
      var said := FirstComplaint(ps, c, n);
      var built := Built(ps[..n], c, PlanOf(ps, c).value);
      if said.Some? then built == Err(said.value) else built.Ok?
  {
    if n > 0 {
      BuiltUpTo(ps, c, n - 1);
      assert ps[..n][..n - 1] == ps[..n - 1];
      var built := Built(ps[..n - 1], c, PlanOf(ps, c).value);
      if built.Ok? {
        BuildingSays(ps, c, n - 1, built.value);
      }
    }
  }

  /** A parameter complains of a changed length, and none before it complains at all. */
  ghost predicate LengthChangesFirst(ps: seq<Parameter>, c: Call) {
    exists k :: 0 <= k < |ps| && Complaint(ps, c, ps[k]) == Some(LengthChanged) && NoneBefore(ps, c, k)
  }

  ghost predicate NoneBefore(ps: seq<Parameter>, c: Call, k: nat) {
    forall j :: 0 <= j < k && j < |ps| ==> Complaint(ps, c, ps[j]).None?
  }

  lemma {:induction false} FirstComplaintIs(ps: seq<Parameter>, c: Call, n: nat, e: RequestError)
    requires n <= |ps|
    ensures FirstComplaint(ps, c, n) == None <==> NoneBefore(ps, c, n)
    ensures FirstComplaint(ps, c, n) == Some(e) <==> exists k :: 0 <= k < n && Complaint(ps, c, ps[k]) == Some(e) && NoneBefore(ps, c, k)
  {
    if n > 0 {
      FirstComplaintIs(ps, c, n - 1, e);
      if FirstComplaint(ps, c, n) == Some(e) && FirstComplaint(ps, c, n - 1).None? {
        assert Complaint(ps, c, ps[n - 1]) == Some(e) && NoneBefore(ps, c, n - 1);
      }
    }
  }

  /**
   * A request fails because a length changed if and only if it is measured and fits, and the first
   * parameter that the building pass stops at is wider or narrower than what was measured last
   * under its name.
   */
  lemma {:induction false} LengthChangesIff(functionName: Name, ps: seq<Parameter>, c: Call, maximum: Option<nat>)
    ensures BuildRequest(functionName, ps, c, maximum) == Err(LengthChanged) <==>
              Preflight(functionName, ps, c, maximum).Ok? && LengthChangesFirst(ps, c)
  {
    MeasuringNeverChangesLength(ps, c);
    if Preflight(functionName, ps, c, maximum).Ok? {
      BuiltUpTo(ps, c, |ps|);
      assert ps[..|ps|] == ps;
      FirstComplaintIs(ps, c, |ps|, LengthChanged);
    }
  }

  // ---------------------------------------------------------------- a request that fails so

  lemma {:induction false} TotalBounded(lengths: seq<nat>, bound: nat)
    requires forall i :: 0 <= i < |lengths| ==> lengths[i] <= bound
    ensures Total(lengths) <= |lengths| * (bound + 10)
  {
    if lengths != [] {
      TotalBounded(lengths[..|lengths| - 1], bound);
    }
  }

  /** Two imports of one name, one byte and two bytes wide. */
  function Narrow(): Parameter {
    Parameter(Importing, [0x50], Fixed(S.Raw(1)), false, true, [])
  }

  function Wide(): Parameter {
    Narrow().(shape := Fixed(S.Raw(2)))
  }

  lemma {:induction false} NarrowAndWideMeasured(c: Call)
    requires c == Call(map[], {}, {}, {})
    ensures PlanOf([Narrow(), Wide()], c).Ok? && PlanOf([Narrow(), Wide()], c).value.lengths == [2, 1, 2, 2]
  {
    var ps := [Narrow(), Wide()];
    assert ps[..1] == [Narrow()] && ps[..1][..0] == [];
    var name: Name := [0x50];
    assert IsScalarText(name) by {
      assert name[1..] == [];
    }
    assert InputLengths(Narrow(), c) == Ok([2, 1]) && InputLengths(Wide(), c) == Ok([2, 2]);
    assert PlanOf([], c) == Ok(EMPTY_PLAN) && PlanOf(ps[..1], c) == Measured(EMPTY_PLAN, Narrow(), c);
    assert PlanOf(ps[..1], c).value.lengths == [2, 1];
  }

  /** Metadata that repeats a name with another width makes the check fire on a whole request. */
  lemma {:induction false} RepeatedNameChangesLength() returns (functionName: Name, ps: seq<Parameter>, c: Call)
    ensures |ps| == 2 && ps[0].name == ps[1].name && BuildRequest(functionName, ps, c, None) == Err(LengthChanged)
  {
    functionName, ps, c := [0x50], [Narrow(), Wide()], Call(map[], {}, {}, {});
    NarrowAndWideMeasured(c);
    var plan := PlanOf(ps, c).value;
    assert NameFits(functionName, 40) by {
      assert functionName[1..] == [];
    }
    assert RequestLengths(functionName, plan) == [6, 2, 0, 2, 1, 2, 2, 0];
    TotalBounded(RequestLengths(functionName, plan), 6);
    assert Preflight(functionName, ps, c, None).Ok?;
    assert ps[..1] == [Narrow()] && ps[..1][..0] == [];
    assert Last(ps, c, Narrow().name, ScalarSort) == Some(Wide()) && Last(ps, c, Narrow().name, DeepSort) == None;
    assert Width(Narrow(), c) == 1 && Width(Wide(), c) == 2;
    assert Complaint(ps, c, ps[0]) == Some(LengthChanged) && NoneBefore(ps, c, 0);
    LengthChangesIff(functionName, ps, c, None);
  }
}
