/**
 * The loops of a classic call: the measuring pass with its running totals and early rejections,
 * the building pass, and the decoding of the reply's values.
 */
module InvocationLoops {
  import opened Text
  import opened Wrappers
  import opened ClassicResult
  import opened Invocation
  import opened RequestSize
  import D = ClassicDecoder
  import L = ClassicLoops
  import O = RequestedOutputs
  import S = Scalars

  // ---------------------------------------------------------------- running totals

  datatype Running = Running(chain: nat, count: nat)

  ghost predicate Tracks(run: Running, lengths: seq<nat>) {
    run.chain == Total(lengths) && run.count == |lengths|
  }

  lemma {:induction false} TotalOfRepeat(n: nat, times: nat)
    ensures Total(S.Repeat(n, times)) == times * RecordLength(n)
  {
    if times > 0 {
      assert S.Repeat(n, times)[..times - 1] == S.Repeat(n, times - 1);
      TotalOfRepeat(n, times - 1);
      assert times * RecordLength(n) == (times - 1) * RecordLength(n) + RecordLength(n);
    }
  }

  /** What does not fit does not fit with more added either. */
  lemma {:induction false} MoreFitsLess(a: seq<nat>, b: seq<nat>, maximum: Option<nat>)
    requires Fits(a + b, maximum)
    ensures Fits(a, maximum)
  {
    TotalSplits(a, b);
    forall i | 0 <= i < |a| ensures a[i] <= MAX_FIELD_LENGTH {
      assert (a + b)[i] == a[i];
    }
  }

  /** Add equal fields and check the limits at once. */
  method AddFields(run: Running, n: nat, times: nat, maximum: Option<nat>, ghost lengths: seq<nat>)
    returns (r: Result<Running, RequestError>)
    requires times > 0 && Tracks(run, lengths) && Fits(lengths, maximum)
    ensures r.Ok? <==> Fits(lengths + S.Repeat(n, times), maximum)
    ensures r.Ok? ==> Tracks(r.value, lengths + S.Repeat(n, times))
  {
    TotalSplits(lengths, S.Repeat(n, times));
    TotalOfRepeat(n, times);
    if n > MAX_FIELD_LENGTH {
      assert (lengths + S.Repeat(n, times))[|lengths|] == n;
      return Err(TooLarge);
    }
    assert RecordLength(n) * times == times * RecordLength(n) >= 0;
    var chain, count := run.chain + RecordLength(n) * times, run.count + times;
    if count > MAX_FIELD_COUNT || chain > MAX_CHAIN_LENGTH {
      return Err(TooLarge);
    }
    if maximum.Some? && FIXED_APPLICATION_BYTES + chain > maximum.value {
      return Err(TooLarge);
    }
    return Ok(Running(chain, count));
  }

  method AddField(run: Running, n: nat, maximum: Option<nat>,
      ghost lengths: seq<nat>) returns (r: Result<Running, RequestError>)
    requires Tracks(run, lengths) && Fits(lengths, maximum)
    ensures r.Ok? <==> Fits(lengths + [n], maximum)
    ensures r.Ok? ==> Tracks(r.value, lengths + [n])
  {
    assert S.Repeat(n, 1) == [n];
    r := AddFields(run, n, 1, maximum, lengths);
  }

  lemma {:induction false} ChunksHoldAll(n: nat)
    ensures Total(Chunks(n)) >= n
    decreases n
  {
    if n > XRFC_CHUNK {
      ChunksHoldAll(n - XRFC_CHUNK);
      TotalSplits([XRFC_CHUNK], Chunks(n - XRFC_CHUNK));
      assert [XRFC_CHUNK][..0] == [];
      assert Total([XRFC_CHUNK]) == Total([]) + RecordLength(XRFC_CHUNK);
    } else if n > 0 {
      assert [n][..0] == [];
      assert Total([n]) == Total([]) + RecordLength(n);
    }
  }

  /** An encoding beyond the remaining room cannot fit. */
  lemma {:induction false} RoomIsNeeded(lengths: seq<nat>, n: nat, maximum: Option<nat>)
    requires Fits(lengths + ([0] + Chunks(n) + [0]), maximum)
    ensures n <= MAX_CHAIN_LENGTH
    ensures maximum.Some? ==> n + Total(lengths) + FIXED_APPLICATION_BYTES <= maximum.value
  {
    ChunksHoldAll(n);
    TotalSplits(lengths, [0] + Chunks(n) + [0]);
    TotalSplits([0] + Chunks(n), [0]);
    TotalSplits([0], Chunks(n));
  }

  function Room(run: Running, maximum: Option<nat>): nat {
    if maximum.None? then MAX_CHAIN_LENGTH
    else
      var left := maximum.value - FIXED_APPLICATION_BYTES - run.chain;
      if left < 0 then 0 else if left > MAX_CHAIN_LENGTH then MAX_CHAIN_LENGTH else left
  }

  function ChunkAt(n: nat, offset: nat): nat
    requires offset < n
  {
    if n - offset < XRFC_CHUNK then n - offset else XRFC_CHUNK
  }

  lemma {:induction false} OneChunkFurther(whole: seq<nat>, done: seq<nat>, n: nat, offset: nat, maximum: Option<nat>)
    requires offset < n && whole == done + Chunks(n - offset)
    ensures offset + ChunkAt(n, offset) <= n
    ensures whole == (done + [ChunkAt(n, offset)]) + Chunks(n - (offset + ChunkAt(n, offset)))
    ensures Fits(whole, maximum) ==> Fits(done + [ChunkAt(n, offset)], maximum)
  {
    var chunk := ChunkAt(n, offset);
    var rest := Chunks(n - (offset + chunk));
    assert Chunks(n - offset) == [chunk] + rest;
    assert done + ([chunk] + rest) == (done + [chunk]) + rest;
    if Fits(whole, maximum) {
      MoreFitsLess(done + [chunk], rest, maximum);
    }
  }

  /** The chunk loop: one field for every chunk, counted by offset. */
  method AddChunks(run: Running, n: nat, maximum: Option<nat>,
      ghost lengths: seq<nat>) returns (r: Result<Running, RequestError>)
    requires Tracks(run, lengths) && Fits(lengths, maximum)
    ensures r.Ok? <==> Fits(lengths + Chunks(n), maximum)
    ensures r.Ok? ==> Tracks(r.value, lengths + Chunks(n))
  {
    var offset: nat := 0;
    var current := run;
    ghost var whole: seq<nat> := lengths + Chunks(n);
    ghost var done: seq<nat> := lengths;
    while offset < n
      invariant offset <= n && Tracks(current, done) && Fits(done, maximum)
      invariant whole == done + Chunks(n - offset)
    {
      OneChunkFurther(whole, done, n, offset, maximum);
      var chunk := if n - offset < XRFC_CHUNK then n - offset else XRFC_CHUNK;
      var added := AddField(current, chunk, maximum, done);
      if added.Err? {
        return Err(added.error);
      }
      done := done + [chunk];
      current, offset := added.value, offset + chunk;
    }
    assert whole == done;
    return Ok(current);
  }

  /** A deep value: its encoding within the room that is left, between two empty boundaries. */
  method AddXrfc(run: Running, n: nat, maximum: Option<nat>,
      ghost lengths: seq<nat>) returns (r: Result<Running, RequestError>)
    requires Tracks(run, lengths) && Fits(lengths, maximum)
    ensures r.Ok? <==> Fits(lengths + ([0] + Chunks(n) + [0]), maximum)
    ensures r.Ok? ==> Tracks(r.value, lengths + ([0] + Chunks(n) + [0]))
  {
    ghost var whole := lengths + ([0] + Chunks(n) + [0]);
    ghost var withOpening := lengths + [0];
    ghost var chunked := withOpening + Chunks(n);
    assert whole == chunked + [0] && whole == withOpening + (Chunks(n) + [0]);
    if Fits(whole, maximum) {
      RoomIsNeeded(lengths, n, maximum);
      MoreFitsLess(withOpening, Chunks(n) + [0], maximum);
      MoreFitsLess(chunked, [0], maximum);
    }
    if n > Room(run, maximum) {
      return Err(TooLarge);
    }
    var opening := AddField(run, 0, maximum, lengths);
    if opening.Err? {
      return opening;
    }
    var data := AddChunks(opening.value, n, maximum, withOpening);
    if data.Err? {
      return data;
    }
    r := AddField(data.value, 0, maximum, chunked);
  }

  /** A table: its name, its header, and its rows all at once. */
  method AddTable(run: Running, name: Name, width: nat, count: nat, maximum: Option<nat>, ghost lengths: seq<nat>)
    returns (r: Result<Running, RequestError>)
    requires Tracks(run, lengths) && Fits(lengths, maximum)
    ensures r.Ok? <==> Fits(lengths + ([2 * |name|, 8] + S.Repeat(width, count)), maximum)
    ensures r.Ok? ==> Tracks(r.value, lengths + ([2 * |name|, 8] + S.Repeat(width, count)))
  {
    ghost var rows: seq<nat> := S.Repeat(width, count);
    ghost var named: seq<nat> := lengths + [2 * |name|];
    ghost var headed: seq<nat> := named + [8];
    ghost var whole: seq<nat> := headed + rows;
    assert whole == lengths + ([2 * |name|, 8] + rows);
    assert whole == named + ([8] + rows);
    if Fits(whole, maximum) {
      MoreFitsLess(named, [8] + rows, maximum);
      MoreFitsLess(headed, rows, maximum);
    }
    var first := AddField(run, 2 * |name|, maximum, lengths);
    if first.Err? {
      return first;
    }
    var second := AddField(first.value, 8, maximum, named);
    if second.Err? {
      return second;
    }
    if count > 0 {
      r := AddFields(second.value, width, count, maximum, headed);
    } else {
      assert whole == headed;
      return second;
    }
  }

  method AddScalar(run: Running, name: Name, n: nat, maximum: Option<nat>, ghost lengths: seq<nat>)
    returns (r: Result<Running, RequestError>)
    requires Tracks(run, lengths) && Fits(lengths, maximum)
    ensures r.Ok? <==> Fits(lengths + [2 * |name|, n], maximum)
    ensures r.Ok? ==> Tracks(r.value, lengths + [2 * |name|, n])
  {
    assert lengths + [2 * |name|, n] == (lengths + [2 * |name|]) + [n];
    if Fits(lengths + [2 * |name|, n], maximum) {
      MoreFitsLess(lengths + [2 * |name|], [n], maximum);
    }
    var first := AddField(run, 2 * |name|, maximum, lengths);
    if first.Err? {
      return first;
    }
    r := AddField(first.value, n, maximum, lengths + [2 * |name|]);
  }

  // ---------------------------------------------------------------- measuring

  method MeasureOutput(p: Parameter, c: Call, run: Running, maximum: Option<nat>, ghost lengths: seq<nat>)
    returns (r: Result<Running, RequestError>)
    requires Tracks(run, lengths) && Fits(lengths, maximum)
    ensures r.Ok? <==> OutputLengths(p, c).Ok? && Fits(lengths + OutputLengths(p, c).value, maximum)
    ensures r.Ok? ==> Tracks(r.value, lengths + OutputLengths(p, c).value)
  {
    if !RequestsOutput(p, c) {
      assert lengths + [] == lengths;
      return Ok(run);
    }
    if !(p.name in c.recursive || p.outputUsable) || !NameFits(p.name, 30) {
      return Err(Invalid);
    }
    r := AddField(run, 2 * |p.name|, maximum, lengths);
  }

  method MeasureInput(p: Parameter, c: Call, run: Running, maximum: Option<nat>, ghost lengths: seq<nat>)
    returns (r: Result<Running, RequestError>)
    requires Tracks(run, lengths) && Fits(lengths, maximum)
    ensures r.Ok? <==> InputLengths(p, c).Ok? && Fits(lengths + InputLengths(p, c).value, maximum)
    ensures r.Ok? ==> Tracks(r.value, lengths + InputLengths(p, c).value)
  {
    if p.usage == OtherUsage {
      return Err(Invalid);
    }
    if !SendsInput(p, c) {
      assert lengths + [] == lengths;
      return Ok(run);
    }
    var v := ActiveInput(p, c).value;
    if p.usage == Tables {
      if !v.Rows? || IsDeep(p, c) || RowLength(p.shape).Err? || !NameFits(p.name, 30) || |v.rows| > MAX_ROWS {
        return Err(Invalid);
      }
      r := AddTable(run, p.name, RowLength(p.shape).value, |v.rows|, maximum, lengths);
    } else if IsDeep(p, c) {
      if !v.Encoded? {
        return Err(Invalid);
      }
      r := AddXrfc(run, |v.bytes|, maximum, lengths);
    } else {
      if !NameFits(p.name, 30) || ValueLength(p.shape, v).Err? {
        return Err(Invalid);
      }
      r := AddScalar(run, p.name, ValueLength(p.shape, v).value, maximum, lengths);
    }
  }

  datatype Pass = Pass(plan: Plan, run: Running)

  /** One parameter of the measuring pass. */
  method MeasureParameter(p: Parameter, c: Call, pass: Pass, maximum: Option<nat>, ghost head: seq<nat>)
    returns (r: Result<Pass, RequestError>)
    requires Tracks(pass.run, head + pass.plan.lengths) && Fits(head + pass.plan.lengths, maximum)
    ensures r.Ok? <==> Measured(pass.plan, p, c).Ok? && Fits(head + Measured(pass.plan, p, c).value.lengths, maximum)
    ensures r.Ok? ==> r.value.plan == Measured(pass.plan, p, c).value && Tracks(r.value.run, head + r.value.plan.lengths)
  {
    ghost var lengths := head + pass.plan.lengths;
    if Measured(pass.plan, p, c).Ok? {
      ghost var next := Measured(pass.plan, p, c).value;
      ghost var outputs, inputs := OutputLengths(p, c).value, InputLengths(p, c).value;
      assert head + next.lengths == (lengths + outputs) + inputs;
      if Fits(head + next.lengths, maximum) {
        MoreFitsLess(lengths + outputs, inputs, maximum);
      }
    }
    var output := MeasureOutput(p, c, pass.run, maximum, lengths);
    if output.Err? {
      return Err(output.error);
    }
    var input := MeasureInput(p, c, output.value, maximum, lengths + OutputLengths(p, c).value);
    if input.Err? {
      return Err(input.error);
    }
    if DuplicateXrfc(pass.plan, p, c) {
      return Err(DuplicateName);
    }
    var plan := Recorded(pass.plan, p, c);
    return Ok(Pass(plan.(lengths := pass.plan.lengths + OutputLengths(p, c).value + InputLengths(p, c).value), input.value));
  }

  /** A plan for all parameters extends the plan for the first of them. */
  lemma {:induction false} PlanExtends(ps: seq<Parameter>, c: Call, n: nat)
    requires n <= |ps| && PlanOf(ps, c).Ok?
    ensures PlanOf(ps[..n], c).Ok? && PlanOf(ps[..n], c).value.lengths <= PlanOf(ps, c).value.lengths
    decreases |ps|
  {
    if n == |ps| {
      assert ps[..n] == ps;
    } else {
      var front := ps[..|ps| - 1];
      PlanExtends(front, c, n);
      assert front[..n] == ps[..n];
    }
  }

  /** If a prefix cannot be measured within the limits, neither can the whole. */
  lemma {:induction false} PrefixDecides(functionName: Name, ps: seq<Parameter>, c: Call, maximum: Option<nat>, n: nat)
    requires n <= |ps| && Preflight(functionName, ps, c, maximum).Ok?
    ensures PlanOf(ps[..n], c).Ok? && Fits([6, 2 * |functionName|, 0] + PlanOf(ps[..n], c).value.lengths, maximum)
  {
    PlanExtends(ps, c, n);
    FrontFits([6, 2 * |functionName|, 0], PlanOf(ps[..n], c).value.lengths, PlanOf(ps, c).value.lengths, maximum);
  }

  lemma {:induction false} FrontFits(head: seq<nat>, some: seq<nat>, all: seq<nat>, maximum: Option<nat>)
    requires some <= all && Fits(head + all + [0], maximum)
    ensures Fits(head + some, maximum)
  {
    assert head + all + [0] == (head + some) + (all[|some|..] + [0]);
    MoreFitsLess(head + some, all[|some|..] + [0], maximum);
  }

  lemma {:induction false} HeadDecides(functionName: Name, ps: seq<Parameter>, c: Call, maximum: Option<nat>)
    requires Preflight(functionName, ps, c, maximum).Ok?
    ensures Fits([6, 2 * |functionName|, 0], maximum) && Fits([6, 2 * |functionName|], maximum) && Fits([6], maximum) && Fits([], maximum)
  {
    PrefixDecides(functionName, ps, c, maximum, 0);
    var head := [6, 2 * |functionName|, 0];
    assert ps[..0] == [] && head + [] == head;
    assert head == [6, 2 * |functionName|] + [0] && [6, 2 * |functionName|] == [6] + [2 * |functionName|] && [6] == [] + [6];
    MoreFitsLess([6, 2 * |functionName|], [0], maximum);
    MoreFitsLess([6], [2 * |functionName|], maximum);
    MoreFitsLess([], [6], maximum);
  }

  /** The three fields every request starts with. */
  method MeasureHead(functionName: Name, maximum: Option<nat>) returns (r: Result<Running, RequestError>)
    requires Fits([], maximum)
    ensures r.Ok? <==> Fits([6, 2 * |functionName|, 0], maximum)
    ensures r.Ok? ==> Tracks(r.value, [6, 2 * |functionName|, 0])
  {
    var head := [6, 2 * |functionName|, 0];
    assert head == [6, 2 * |functionName|] + [0] && [6, 2 * |functionName|] == [6] + [2 * |functionName|] && [6] == [] + [6];
    if Fits(head, maximum) {
      MoreFitsLess([6, 2 * |functionName|], [0], maximum);
      MoreFitsLess([6], [2 * |functionName|], maximum);
    }
    var first := AddField(Running(0, 0), 6, maximum, []);
    if first.Err? {
      return first;
    }
    var second := AddField(first.value, 2 * |functionName|, maximum, [6]);
    if second.Err? {
      return second;
    }
    r := AddField(second.value, 0, maximum, [6, 2 * |functionName|]);
  }

  /** The measuring pass: it accepts exactly what can be measured and fits, and returns its plan. */
  method PreflightRequest(functionName: Name, ps: seq<Parameter>, c: Call,
      maximum: Option<nat>) returns (r: Result<Plan, RequestError>)
    ensures r.Ok? <==> Preflight(functionName, ps, c, maximum).Ok?
    ensures r.Ok? ==> r == Preflight(functionName, ps, c, maximum)
  {
    if Preflight(functionName, ps, c, maximum).Ok? {
      HeadDecides(functionName, ps, c, maximum);
    }
    if !NameFits(functionName, 40) {
      return Err(Invalid);
    }
    if maximum.Some? && maximum.value < FIXED_APPLICATION_BYTES {
      return Err(TooLarge);
    }
    var head := MeasureHead(functionName, maximum);
    if head.Err? {
      return Err(head.error);
    }
    ghost var start := [6, 2 * |functionName|, 0];
    assert start + [] == start && ps[..0] == [];
    var pass := Pass(EMPTY_PLAN, head.value);
    for index := 0 to |ps|
      invariant PlanOf(ps[..index], c) == Ok(pass.plan)
      invariant Tracks(pass.run, start + pass.plan.lengths) && Fits(start + pass.plan.lengths, maximum)
    {
      assert ps[..index + 1][..index] == ps[..index];
      if Preflight(functionName, ps, c, maximum).Ok? {
        PrefixDecides(functionName, ps, c, maximum, index + 1);
      }
      var next := MeasureParameter(ps[index], c, pass, maximum, start);
      if next.Err? {
        return Err(next.error);
      }
      pass := next.value;
    }
    assert ps[..|ps|] == ps;
    var end := AddField(pass.run, 0, maximum, start + pass.plan.lengths);
    if end.Err? {
      return Err(end.error);
    }
    return Ok(pass.plan);
  }

  // ---------------------------------------------------------------- building

  /** The rows of one table, each checked against the width measured for it. */
  method BuildRows(shape: Shape, rows: seq<Value>, count: nat, width: nat) returns (r: Result<seq<Bytes>, RequestError>)
    ensures r.Ok? <==> EncodeRows(shape, rows, count, width).Ok?
    ensures r.Ok? ==> r == EncodeRows(shape, rows, count, width)
  {
    var encoded: seq<Bytes> := [];
    for index := 0 to count
      invariant EncodeRows(shape, rows, index, width) == Ok(encoded)
    {
      if EncodeRows(shape, rows, count, width).Ok? {
        FirstRowsEncode(shape, rows, count, width, index + 1);
      }
      if index >= |rows| {
        return Err(Invalid);
      }
      var row := EncodeValue(shape, rows[index]);
      if row.Err? {
        return Err(row.error);
      }
      if |row.value| != width {
        return Err(LengthChanged);
      }
      encoded := encoded + [row.value];
    }
    return Ok(encoded);
  }

  lemma {:induction false} FirstRowsEncode(shape: Shape, rows: seq<Value>, count: nat, width: nat, n: nat)
    requires n <= count && EncodeRows(shape, rows, count, width).Ok?
    ensures EncodeRows(shape, rows, n, width).Ok?
    decreases count
  {
    if n < count {
      FirstRowsEncode(shape, rows, count - 1, width, n);
    }
  }

  lemma {:induction false} FirstParametersBuild(ps: seq<Parameter>, c: Call, plan: Plan, n: nat)
    requires n <= |ps|
    ensures Built(ps[..n], c, plan).Err? ==> Built(ps, c, plan) == Built(ps[..n], c, plan)
    decreases |ps|
  {
    if n == |ps| {
      assert ps[..n] == ps;
    } else {
      assert ps[..|ps| - 1][..n] == ps[..n];
      FirstParametersBuild(ps[..|ps| - 1], c, plan, n);
    }
  }

  /** The building pass over the parameters. */
  method BuildLists(ps: seq<Parameter>, c: Call, plan: Plan) returns (r: Result<Request, RequestError>)
    ensures r == Built(ps, c, plan)
  {
    var request := EMPTY_REQUEST;
    assert ps[..0] == [];
    for index := 0 to |ps|
      invariant Built(ps[..index], c, plan) == Ok(request)
    {
      assert ps[..index + 1][..index] == ps[..index];
      FirstParametersBuild(ps, c, plan, index + 1);
      var p := ps[index];
      var asked := request;
      if RequestsOutput(p, c) {
        asked := asked.(outputs := asked.outputs + [p.name]);
      }
      if p.usage == OtherUsage {
        return Err(Invalid);
      }
      if SendsInput(p, c) {
        var added := AddedInput(asked, p, c, plan);
        if added.Err? {
          return Err(added.error);
        }
        asked := added.value;
      }
      request := asked;
    }
    assert ps[..|ps|] == ps;
    return Ok(request);
  }

  // ---------------------------------------------------------------- decoding

  lemma {:induction false} FirstEntriesFail(
    ps: seq<Parameter>, c: Call, requested: set<Name>, start: O.Taken, entries: seq<O.Entry>, n: nat)
    requires n <= |entries|
    ensures O.TakeAll(ps, c, requested, start, entries[..n]).Err? ==>
              O.TakeAll(ps, c, requested, start, entries) == O.TakeAll(ps, c, requested, start, entries[..n])
    decreases |entries|
  {
    if n == |entries| {
      assert entries[..n] == entries;
    } else {
      assert entries[..|entries| - 1][..n] == entries[..n];
      FirstEntriesFail(ps, c, requested, start, entries[..|entries| - 1], n);
    }
  }

  /** Deactivated outputs get their initial values, the loops go over the values, and none requested may be missing. */
  method DecodeValues(ps: seq<Parameter>, c: Call,
      entries: seq<O.Entry>) returns (r: Result<map<Name, O.Output>, O.OutputError>)
    ensures r == O.DecodedOutputs(ps, c, entries)
  {
    var requested := O.SetOf(O.RequestedNames(ps, O.WithoutInput(c)));
    var initial := O.Deactivated(ps, c);
    if initial.Err? {
      return Err(initial.error);
    }
    var start := O.Taken(initial.value, {});
    var output: map<Name, O.Output>, returned: set<Name> := initial.value, {};
    assert entries[..0] == [];
    for index := 0 to |entries|
      invariant O.TakeAll(ps, c, requested, start, entries[..index]) == Ok(O.Taken(output, returned))
    {
      assert entries[..index + 1][..index] == entries[..index];
      FirstEntriesFail(ps, c, requested, start, entries, index + 1);
      var e := entries[index];
      if O.EntryName(e).None? {
        return Err(O.Nameless);
      }
      var name := O.EntryName(e).value;
      if name in returned {
        return Err(O.Repeated);
      }
      returned := returned + {name};
      if name in c.deactivated {
        continue;
      }
      var p := O.Lookup(ps, name);
      if p.None? {
        return Err(O.UnknownParameter);
      }
      if !O.Fitting(p.value, e) {
        return Err(O.WrongDirection);
      }
      if name !in requested {
        continue;
      }
      var v := O.DecodeEntry(p.value, c, e);
      if v.Err? {
        return Err(v.error);
      }
      output := output[name := v.value];
    }
    assert entries[..|entries|] == entries;
    if !(requested <= output.Keys) {
      return Err(O.MissingOutput);
    }
    return Ok(output);
  }

  /** The decoding of a reply: its fields are grouped, then its values decoded. */
  method DecodeOutputs(ps: seq<Parameter>, c: Call,
      fields: seq<Field>) returns (r: Result<map<Name, O.Output>, O.OutputError>)
    ensures r == O.OutputsOf(ps, c, fields)
  {
    var reply := L.DecodeClassicResult(fields);
    if reply.Err? {
      return Err(O.NotAResult);
    }
    r := DecodeValues(ps, c, O.Entries(reply.value));
  }
}
