/** The index loops of the classic reply decoder, proved to compute what the grouping specifies. */
module ClassicLoops {
  import opened Text
  import opened Wrappers
  import opened ClassicResult
  import opened ClassicDecoder
  import S = Scalars

  /** Add up the value lengths, stopping as soon as the limit is exceeded. */
  method ValuesFit(fields: seq<Field>) returns (ok: bool)
    ensures ok <==> ValueBytes(fields) <= MAX_CHAIN_LENGTH
  {
    var bytes := 0;
    for index := 0 to |fields|
      invariant bytes == ValueBytes(fields[..index]) <= MAX_CHAIN_LENGTH
    {
      assert fields[..index + 1][..index] == fields[..index];
      bytes := bytes + |fields[index].value|;
      if bytes > MAX_CHAIN_LENGTH {
        ValueBytesSplit(fields, index + 1);
        return false;
      }
    }
    assert fields[..|fields|] == fields;
    return true;
  }

  // ---------------------------------------------------------------- rows

  function After(front: seq<Field>, rest: Result<seq<Field>, Error>): Result<seq<Field>, Error> {
    match rest
    case Err(e) => Err(e)
    case Ok(rows) => Ok(front + rows)
  }

  lemma {:induction false} OneRowFurther(fields: seq<Field>, start: nat, cursor: nat, h: Header, n: nat)
    requires start <= cursor < |fields| && n > 0 && IsRow(fields[cursor])
    ensures RowFault(h, fields[cursor]).Some? ==>
              After(fields[start..cursor], RowsAt(fields, cursor, h, n)) == Err(RowFault(h, fields[cursor]).value)
    ensures RowFault(h, fields[cursor]).None? ==>
              After(fields[start..cursor], RowsAt(fields, cursor, h, n)) == After(fields[start..cursor + 1], RowsAt(fields, cursor + 1, h, n - 1))
  {
    if RowFault(h, fields[cursor]).None? && RowsAt(fields, cursor + 1, h, n - 1).Ok? {
      var rest := RowsAt(fields, cursor + 1, h, n - 1).value;
      assert fields[start..cursor] + ([fields[cursor]] + rest) == fields[start..cursor + 1] + rest;
    }
  }

  lemma {:induction false} AfterNothing(r: Result<seq<Field>, Error>)
    ensures After([], r) == r
  {
    if r.Ok? {
      assert [] + r.value == r.value;
    }
  }

  /** The size one row will have, or what is wrong with it. */
  method MeasureRow(row: Field, h: Header) returns (r: Result<nat, Error>)
    ensures r == if RowFault(h, row).Some? then Err(RowFault(h, row).value) else Ok(RowSize(h, row))
  {
    if |row.value| == 0 {
      return Err(RowEmpty);
    }
    if |row.value| > h.width {
      return Err(RowTooWide);
    }
    if row.tag == TABLE_COMPR && |row.value| < h.width && h.width > MAX_FIELD_LENGTH {
      return Err(RowExpandsTooFar);
    }
    return Ok(if row.tag == TABLE_COMPR then h.width else |row.value|);
  }

  /** The rows before the cursor are measured; the rest decides the outcome. */
  ghost predicate MeasuredTo(fields: seq<Field>, start: nat, cursor: nat, h: Header, size: nat) {
    && start <= cursor <= |fields| && cursor - start <= h.count
    && size == RowsSize(h, fields[start..cursor])
    && RowsAt(fields, start, h, h.count) == After(fields[start..cursor], RowsAt(fields, cursor, h, h.count - (cursor - start)))
  }

  lemma {:induction false} MeasuredOneMore(fields: seq<Field>, start: nat, cursor: nat, h: Header, size: nat)
    requires MeasuredTo(fields, start, cursor, h, size) && cursor < |fields| && cursor - start < h.count && IsRow(fields[cursor])
    ensures RowFault(h, fields[cursor]).Some? ==> RowsAt(fields, start, h, h.count) == Err(RowFault(h, fields[cursor]).value)
    ensures RowFault(h, fields[cursor]).None? ==> MeasuredTo(fields, start, cursor + 1, h, size + RowSize(h, fields[cursor]))
  {
    OneRowFurther(fields, start, cursor, h, h.count - (cursor - start));
    assert fields[start..cursor + 1][..cursor - start] == fields[start..cursor];
  }

  /** The scan's loop over the rows of one table. */
  method MeasureRows(fields: seq<Field>, start: nat, h: Header) returns (r: Result<Scanned, Error>)
    requires start <= |fields|
    ensures
      match RowsAt(fields, start, h, h.count)
      case Err(e) => r == Err(e)
      case Ok(rows) => r == Ok(Scanned(|rows|, RowsSize(h, rows)))
  {
    var size: nat, cursor: nat := 0, start;
    assert fields[start..start] == [];
    AfterNothing(RowsAt(fields, start, h, h.count));
    while cursor - start < h.count && cursor < |fields| && (fields[cursor].tag == TABLE_CONTENT || fields[cursor].tag == TABLE_COMPR)
      invariant MeasuredTo(fields, start, cursor, h, size)
      decreases |fields| - cursor
    {
      MeasuredOneMore(fields, start, cursor, h, size);
      var measured := MeasureRow(fields[cursor], h);
      if measured.Err? {
        return Err(measured.error);
      }
      size, cursor := size + measured.value, cursor + 1;
    }
    if cursor - start != h.count {
      return Err(RowCountMismatch);
    }
    assert fields[start..cursor] + [] == fields[start..cursor];
    return Ok(Scanned(h.count, size));
  }

  method MeasureTable(fields: seq<Field>, index: nat) returns (r: Result<Scanned, Error>)
    requires index + 1 < |fields|
    ensures r == ScanTable(fields, index)
  {
    var name := NameOf(fields[index].value);
    if name.Err? {
      return Err(name.error);
    }
    var header := HeaderOf(fields[index + 1].value);
    if header.Err? {
      return Err(header.error);
    }
    r := MeasureRows(fields, index + 2, header.value);
  }

  lemma {:induction false} MeasuredRowsFit(fields: seq<Field>, index: nat)
    requires index + 1 < |fields| && ScanTable(fields, index).Ok?
    ensures index + 2 + ScanTable(fields, index).value.rows <= |fields|
  {
    var h := HeaderOf(fields[index + 1].value).value;
    RowsFound(fields, index + 2, h, h.count);
  }

  /** The scan over all fields. */
  method PreflightTables(fields: seq<Field>) returns (r: Result<nat, Error>)
    ensures r == TableBytesFrom(fields, 0, 0)
  {
    var index: nat, total: nat := 0, 0;
    while index < |fields|
      invariant index <= |fields| && TableBytesFrom(fields, 0, 0) == TableBytesFrom(fields, index, total)
    {
      if fields[index].tag != TABLE_NAME || index + 1 >= |fields| || fields[index + 1].tag != TABLE_HEADER {
        index := index + 1;
      } else {
        var measured := MeasureTable(fields, index);
        if measured.Err? {
          return Err(measured.error);
        }
        MeasuredRowsFit(fields, index);
        if measured.value.size > MAX_CHAIN_LENGTH {
          return Err(TableTooLarge);
        }
        if total + measured.value.size > MAX_CHAIN_LENGTH {
          return Err(ResultTooLarge);
        }
        total := total + measured.value.size;
        index := index + 2 + measured.value.rows;
      }
    }
    return Ok(total);
  }

  // ---------------------------------------------------------------- decoding

  /** Decode one simple-compressed row; the checks repeat those of the scan. */
  method DecompressRow(row: Field, h: Header) returns (r: Result<Bytes, Error>)
    requires row.tag == TABLE_COMPR
    ensures r == if RowFault(h, row).Some? then Err(RowFault(h, row).value) else Ok(RowBytes(h, row))
  {
    if |row.value| == 0 {
      return Err(RowEmpty);
    }
    if |row.value| > h.width {
      return Err(RowTooWide);
    }
    if |row.value| == h.width {
      return Ok(row.value);
    }
    if h.width > MAX_FIELD_LENGTH {
      return Err(RowExpandsTooFar);
    }
    return Ok(row.value + S.Repeat(row.value[|row.value| - 1], h.width - |row.value|));
  }

  lemma {:induction false} HasTagAfter(rows: seq<Field>, row: Field, tag: int)
    ensures HasTag(rows + [row], tag) <==> HasTag(rows, tag) || row.tag == tag
  {
    assert (rows + [row])[..|rows|] == rows;
  }

  /** One row as the decoder takes it; the checks repeat those of the scan. */
  method DecodeRow(row: Field, h: Header) returns (r: Result<Bytes, Error>)
    requires IsRow(row)
    ensures r == if RowFault(h, row).Some? then Err(RowFault(h, row).value) else Ok(RowBytes(h, row))
  {
    if row.tag == TABLE_COMPR {
      r := DecompressRow(row, h);
      return;
    }
    if |row.value| == 0 {
      return Err(RowEmpty);
    }
    if |row.value| > h.width {
      return Err(RowTooWide);
    }
    return Ok(row.value);
  }

  /** The rows before the index are decoded, and the flags say which encodings they had. */
  ghost predicate DecodedTo(
    fields: seq<Field>, start: nat, index: nat, h: Header, rows: seq<Bytes>, width: nat, plain: bool, compressed: bool)
  {
    && start <= index <= |fields| && index - start <= h.count && |rows| == index - start
    && rows == DecodedRows(h, fields[start..index])
    && width == (if rows == [] then h.width else |rows[0]|)
    && (plain <==> HasTag(fields[start..index], TABLE_CONTENT))
    && (compressed <==> HasTag(fields[start..index], TABLE_COMPR))
    && RowsAt(fields, start, h, h.count) == After(fields[start..index], RowsAt(fields, index, h, h.count - |rows|))
  }

  lemma {:induction false} DecodedOneMore(
    fields: seq<Field>, start: nat, index: nat, h: Header, rows: seq<Bytes>, width: nat, plain: bool, compressed: bool)
    requires DecodedTo(fields, start, index, h, rows, width, plain, compressed)
    requires index < |fields| && |rows| < h.count && IsRow(fields[index])
    ensures RowFault(h, fields[index]).Some? ==> RowsAt(fields, start, h, h.count) == Err(RowFault(h, fields[index]).value)
    ensures RowFault(h, fields[index]).None? ==>
              DecodedTo(fields, start, index + 1, h, rows + [RowBytes(h, fields[index])],
                        if rows == [] then |RowBytes(h, fields[index])| else width,
                        plain || fields[index].tag == TABLE_CONTENT, compressed || fields[index].tag == TABLE_COMPR)
  {
    OneRowFurther(fields, start, index, h, h.count - |rows|);
    assert fields[start..index + 1] == fields[start..index] + [fields[index]];
    HasTagAfter(fields[start..index], fields[index], TABLE_CONTENT);
    HasTagAfter(fields[start..index], fields[index], TABLE_COMPR);
    assert DecodedRows(h, fields[start..index + 1]) == DecodedRows(h, fields[start..index]) + [RowBytes(h, fields[index])];
  }

  lemma {:induction false} DecodedNothing(fields: seq<Field>, start: nat, h: Header)
    requires start <= |fields|
    ensures DecodedTo(fields, start, start, h, [], h.width, false, false)
  {
    assert fields[start..start] == [];
    AfterNothing(RowsAt(fields, start, h, h.count));
  }

  lemma {:induction false} StoppedShort(
    fields: seq<Field>, start: nat, index: nat, h: Header, rows: seq<Bytes>, width: nat, plain: bool, compressed: bool)
    requires DecodedTo(fields, start, index, h, rows, width, plain, compressed) && |rows| < h.count
    requires index >= |fields| || !IsRow(fields[index])
    ensures RowsAt(fields, start, h, h.count) == Err(RowCountMismatch)
  {}

  lemma {:induction false} DecodedAll(
    fields: seq<Field>, start: nat, index: nat, h: Header, rows: seq<Bytes>, width: nat, plain: bool, compressed: bool, name: Units)
    requires DecodedTo(fields, start, index, h, rows, width, plain, compressed) && |rows| == h.count
    ensures
      var encoding := if plain && compressed then Mixed else if plain then Flat else if compressed then Structured else Empty;
      && RowsAt(fields, start, h, h.count) == Ok(fields[start..index])
      && TableOf(name, h, fields[start..index]) == TableValue(name, h.width, width, encoding, rows)
  {
    assert fields[start..index] + [] == fields[start..index];
    assert EncodingOf(fields[start..index]) ==
        if plain && compressed then Mixed else if plain then Flat else if compressed then Structured else Empty;
  }

  datatype RowsSoFar = RowsSoFar(rows: seq<Bytes>, width: nat, plain: bool, compressed: bool)

  /** Take one row, noting its encoding; the first row gives the row width. */
  method TakeRow(fields: seq<Field>, ghost start: nat, index: nat, h: Header,
      sofar: RowsSoFar) returns (r: Result<RowsSoFar, Error>)
    requires DecodedTo(fields, start, index, h, sofar.rows, sofar.width, sofar.plain, sofar.compressed)
    requires index < |fields| && |sofar.rows| < h.count && IsRow(fields[index])
    ensures
      match r
      case Err(e) => RowsAt(fields, start, h, h.count) == Err(e)
      case Ok(next) => DecodedTo(fields, start, index + 1, h, next.rows, next.width, next.plain, next.compressed)
  {
    DecodedOneMore(fields, start, index, h, sofar.rows, sofar.width, sofar.plain, sofar.compressed);
    var row := DecodeRow(fields[index], h);
    if row.Err? {
      return Err(row.error);
    }
    var width := if |sofar.rows| == 0 then |row.value| else sofar.width;
    if fields[index].tag == TABLE_COMPR {
      return Ok(RowsSoFar(sofar.rows + [row.value], width, sofar.plain, true));
    }
    return Ok(RowsSoFar(sofar.rows + [row.value], width, true, sofar.compressed));
  }

  /** The decoder's loop over the rows of one table, with the two flags that name the encoding. */
  method DecodeRows(fields: seq<Field>, start: nat, h: Header, name: Units) returns (r: Result<TableValue, Error>)
    requires start <= |fields|
    ensures
      match RowsAt(fields, start, h, h.count)
      case Err(e) => r == Err(e)
      case Ok(rows) => r == Ok(TableOf(name, h, rows))
  {
    var sofar := RowsSoFar([], h.width, false, false);
    var index := start;
    DecodedNothing(fields, start, h);
    while |sofar.rows| < h.count && index < |fields| && (fields[index].tag == TABLE_CONTENT || fields[index].tag == TABLE_COMPR)
      invariant DecodedTo(fields, start, index, h, sofar.rows, sofar.width, sofar.plain, sofar.compressed)
      decreases |fields| - index
    {
      var next := TakeRow(fields, start, index, h, sofar);
      if next.Err? {
        return Err(next.error);
      }
      sofar, index := next.value, index + 1;
    }
    if |sofar.rows| != h.count {
      StoppedShort(fields, start, index, h, sofar.rows, sofar.width, sofar.plain, sofar.compressed);
      return Err(RowCountMismatch);
    }
    DecodedAll(fields, start, index, h, sofar.rows, sofar.width, sofar.plain, sofar.compressed, name);
    var encoding :=
      if sofar.plain && sofar.compressed then Mixed
      else if sofar.plain then Flat
      else if sofar.compressed then Structured
      else Empty;
    return Ok(TableValue(name, h.width, sofar.width, encoding, sofar.rows));
  }

  function AfterChunks(front: seq<Bytes>, rest: Result<seq<Bytes>, Error>): Result<seq<Bytes>, Error> {
    match rest
    case Err(e) => Err(e)
    case Ok(chunks) => Ok(front + chunks)
  }

  /** The loop over the data chunks between two xRFC boundaries. */
  method DecodeChunks(fields: seq<Field>, start: nat) returns (r: Result<seq<Bytes>, Error>)
    requires start <= |fields|
    ensures r == ChunksAt(fields, start, 0)
  {
    var chunks: seq<Bytes> := [];
    var length: nat, index: nat := 0, start;
    ghost var whole := ChunksAt(fields, start, 0);
    assert whole == AfterChunks([], whole) by {
      assert whole.Ok? ==> [] + whole.value == whole.value;
    }
    while index < |fields| && fields[index].tag == XRFC_DATA
      invariant index == start + |chunks| <= |fields|
      invariant whole == AfterChunks(chunks, ChunksAt(fields, index, length))
    {
      var chunk := fields[index].value;
      if |chunk| == 0 {
        return Err(XrfcChunkEmpty);
      }
      if length + |chunk| > MAX_CHAIN_LENGTH {
        return Err(XrfcTooLong);
      }
      assert ChunksAt(fields, index + 1, length + |chunk|).Ok? ==>
          chunks + ([chunk] + ChunksAt(fields, index + 1, length + |chunk|).value)
          == (chunks + [chunk]) + ChunksAt(fields, index + 1, length + |chunk|).value;
      length := length + |chunk|;
      chunks, index := chunks + [chunk], index + 1;
    }
    assert chunks + [] == chunks;
    return Ok(chunks);
  }

  /** One group: its record and the reply with it. */
  method DecodeRecord(fields: seq<Field>, index: nat, names: set<Units>, reply: Reply)
    returns (r: Result<(Reply, nat, set<Units>), Error>)
    requires index < |fields|
    ensures
      match RecordAt(fields, index, names)
      case Err(e) => r == Err(e)
      case Ok(record) => RecordSound(record) && r == Ok((Added(reply, record), index + Width(record), names + Claimed(record)))
  {
    var field := fields[index];
    if RecordAt(fields, index, names).Ok? {
      FoundRecordSpells(fields, index, names);
    }
    if IsIgnored(field.tag) {
      assert names + Claimed(Ignored(field)) == names;
      return Ok((reply, index + 1, names));
    }
    if field.tag == REQUESTED_OUTPUT {
      var name := NameOf(field.value);
      if name.Err? {
        return Err(name.error);
      }
      assert names + Claimed(Requested(field.value)) == names;
      return Ok((reply.(requested := reply.requested + [name.value]), index + 1, names));
    }
    if field.tag == XRFC_DATA {
      return Err(StrayXrfcData);
    }
    if field.tag == XRFC_PARAMETER {
      assert names + {} == names;
      r := DecodeXrfc(fields, index, names, reply);
      return;
    }
    if field.tag == PARAMETER_VALUE {
      return Err(StrayValue);
    }
    if field.tag == TABLE_HEADER || field.tag == TABLE_CONTENT || field.tag == TABLE_COMPR {
      return Err(StrayTableRecord);
    }
    if field.tag == PARAMETER_NAME {
      r := DecodeNamedScalar(fields, index, names, reply);
      return;
    }
    if field.tag == TABLE_NAME {
      r := DecodeTable(fields, index, names, reply);
      return;
    }
    return Err(UnsupportedTag);
  }

  method DecodeXrfc(fields: seq<Field>, index: nat, names: set<Units>, reply: Reply)
    returns (r: Result<(Reply, nat, set<Units>), Error>)
    requires index < |fields|
    ensures
      match XrfcAt(fields, index)
      case Err(e) => r == Err(e)
      case Ok(record) =>
        record.Xrfc? && r == Ok((reply.(xrfc := reply.xrfc + [XrfcValue(Joined(record.chunks), |record.chunks|)]),
                                 index + Width(record), names))
  {
    if |fields[index].value| != 0 {
      return Err(XrfcOpeningNotEmpty);
    }
    var chunks := DecodeChunks(fields, index + 1);
    if chunks.Err? {
      return Err(chunks.error);
    }
    ChunksFound(fields, index + 1, 0);
    if |chunks.value| == 0 {
      return Err(XrfcNoData);
    }
    var closing := index + 1 + |chunks.value|;
    if closing >= |fields| || fields[closing].tag != XRFC_PARAMETER {
      return Err(XrfcNotClosed);
    }
    if |fields[closing].value| != 0 {
      return Err(XrfcClosingNotEmpty);
    }
    return Ok((reply.(xrfc := reply.xrfc + [XrfcValue(Joined(chunks.value), |chunks.value|)]), closing + 1, names));
  }

  method DecodeNamedScalar(fields: seq<Field>, index: nat, names: set<Units>, reply: Reply)
    returns (r: Result<(Reply, nat, set<Units>), Error>)
    requires index < |fields|
    ensures
      match ScalarAt(fields, index, names)
      case Err(e) => r == Err(e)
      case Ok(record) =>
        && record.Scalar? && NameOf(record.raw).Ok?
        && r == Ok((reply.(scalars := reply.scalars + [ScalarValue(NameOf(record.raw).value, record.value)]), index + 2,
                    names + {NameOf(record.raw).value}))
  {
    var name := NameOf(fields[index].value);
    if name.Err? {
      return Err(name.error);
    }
    if index + 1 >= |fields| || fields[index + 1].tag != PARAMETER_VALUE {
      return Err(ScalarWithoutValue);
    }
    if name.value in names {
      return Err(Duplicate);
    }
    return Ok((reply.(scalars := reply.scalars + [ScalarValue(name.value, fields[index + 1].value)]), index + 2, names + {name.value}));
  }

  method DecodeTable(fields: seq<Field>, index: nat, names: set<Units>, reply: Reply)
    returns (r: Result<(Reply, nat, set<Units>), Error>)
    requires index < |fields|
    ensures
      match TableAt(fields, index, names)
      case Err(e) => r == Err(e)
      case Ok(record) =>
        && record.Table? && NameOf(record.raw).Ok? && HeaderOf(record.header).Ok?
        && r == Ok((reply.(tables := reply.tables + [TableOf(NameOf(record.raw).value, HeaderOf(record.header).value, record.rows)]),
                    index + Width(record), names + {NameOf(record.raw).value}))
  {
    var name := NameOf(fields[index].value);
    if name.Err? {
      return Err(name.error);
    }
    if index + 1 >= |fields| || fields[index + 1].tag != TABLE_HEADER {
      return Err(TableWithoutHeader);
    }
    if name.value in names {
      return Err(Duplicate);
    }
    var header := HeaderOf(fields[index + 1].value);
    if header.Err? {
      return Err(header.error);
    }
    var table := DecodeRows(fields, index + 2, header.value, name.value);
    if table.Err? {
      return Err(table.error);
    }
    assert |table.value.rows| == |RowsAt(fields, index + 2, header.value, header.value.count).value|;
    return Ok((reply.(tables := reply.tables + [table.value]), index + 2 + |table.value.rows|, names + {name.value}));
  }

  /** One group taken in moves the decoder on. */
  lemma {:induction false} OneRecordFurther(fields: seq<Field>, i: nat, names: set<Units>, reply: Reply)
    requires i < |fields|
    ensures
      match RecordAt(fields, i, names)
      case Err(e) => ReplyFrom(fields, i, names, reply) == Err(e)
      case Ok(r) =>
        && i + Width(r) <= |fields| && RecordSound(r)
        && ReplyFrom(fields, i, names, reply) == ReplyFrom(fields, i + Width(r), names + Claimed(r), Added(reply, r))
  {
    match RecordAt(fields, i, names)
    case Err(_) =>
    case Ok(r) =>
      FoundIffFits(fields, i, names, r);
      var rest := RecordsFrom(fields, i + Width(r), names + Claimed(r));
      if rest.Ok? {
        assert ([r] + rest.value)[1..] == rest.value;
      }
  }

  /** The decoder: the scans, then one group after another. */
  method DecodeClassicResult(fields: seq<Field>) returns (r: Result<Reply, Error>)
    ensures r == Decoded(fields)
  {
    if |fields| > MAX_FIELD_COUNT {
      return Err(TooManyFields);
    }
    var fits := ValuesFit(fields);
    if !fits {
      return Err(TooManyBytes);
    }
    var scan := PreflightTables(fields);
    if scan.Err? {
      return Err(scan.error);
    }
    var reply, index, names := EMPTY_REPLY, 0, {};
    while index < |fields|
      invariant index <= |fields| && ReplyFrom(fields, 0, {}, EMPTY_REPLY) == ReplyFrom(fields, index, names, reply)
    {
      OneRecordFurther(fields, index, names, reply);
      var step := DecodeRecord(fields, index, names, reply);
      if step.Err? {
        return Err(step.error);
      }
      reply, index, names := step.value.0, step.value.1, step.value.2;
    }
    return Ok(reply);
  }
}
