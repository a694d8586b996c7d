/**
 * Decoding a classic RFC reply: the two scans that run first, the index loops that group the
 * fields, and the agreement between them.
 */
module ClassicDecoder {
  import opened Text
  import opened Wrappers
  import opened ClassicResult
  import S = Scalars

  datatype RowEncoding = Empty | Flat | Structured | Mixed

  datatype TableValue = TableValue(name: Units, declaredWidth: nat, rowWidth: nat, encoding: RowEncoding, rows: seq<Bytes>)

  datatype ScalarValue = ScalarValue(name: Units, value: Bytes)

  datatype XrfcValue = XrfcValue(value: Bytes, chunkCount: nat)

  datatype Reply = Reply(requested: seq<Units>, scalars: seq<ScalarValue>, tables: seq<TableValue>, xrfc: seq<XrfcValue>)

  const EMPTY_REPLY := Reply([], [], [], [])

  // ---------------------------------------------------------------- the scans

  function ValueBytes(fields: seq<Field>): nat {
    if fields == [] then 0 else ValueBytes(fields[..|fields| - 1]) + |fields[|fields| - 1].value|
  }

  /** What a row counts for, before it is decoded. */
  function RowSize(h: Header, row: Field): nat {
    if row.tag == TABLE_COMPR then h.width else |row.value|
  }

  function RowsSize(h: Header, rows: seq<Field>): nat {
    if rows == [] then 0 else RowsSize(h, rows[..|rows| - 1]) + RowSize(h, rows[|rows| - 1])
  }

  datatype Scanned = Scanned(rows: nat, size: nat)

  /** The rows of the table that starts at a position, counted and measured but not decoded. */
  function ScanTable(fields: seq<Field>, i: nat): Result<Scanned, Error>
    requires i + 1 < |fields|
  {
    match NameOf(fields[i].value)
    case Err(e) => Err(e)
    case Ok(_) =>
      match HeaderOf(fields[i + 1].value)
      case Err(e) => Err(e)
      case Ok(h) =>
        match RowsAt(fields, i + 2, h, h.count)
        case Err(e) => Err(e)
        case Ok(rows) => Ok(Scanned(|rows|, RowsSize(h, rows)))
  }

  /** The total decoded size of the tables from a position on. */
  function TableBytesFrom(fields: seq<Field>, i: nat, total: nat): Result<nat, Error>
    decreases |fields| - i
  {
    if i >= |fields| then Ok(total)
    else if fields[i].tag != TABLE_NAME || TagAt(fields, i + 1) != TABLE_HEADER then TableBytesFrom(fields, i + 1, total)
    else
      match ScanTable(fields, i)
      case Err(e) => Err(e)
      case Ok(t) =>
        if t.size > MAX_CHAIN_LENGTH then Err(TableTooLarge)
        else if total + t.size > MAX_CHAIN_LENGTH then Err(ResultTooLarge)
        else TableBytesFrom(fields, i + 2 + t.rows, total + t.size)
  }

  // ---------------------------------------------------------------- collecting

  predicate HasTag(rows: seq<Field>, tag: int) {
    rows != [] && (HasTag(rows[..|rows| - 1], tag) || rows[|rows| - 1].tag == tag)
  }

  function EncodingOf(rows: seq<Field>): RowEncoding {
    var plain, compressed := HasTag(rows, TABLE_CONTENT), HasTag(rows, TABLE_COMPR);
    if plain && compressed then Mixed else if plain then Flat else if compressed then Structured else Empty
  }

  /** The encoding label says which kinds of row occur. */
  lemma {:induction false} EncodingSaysWhatOccurs(rows: seq<Field>)
    ensures EncodingOf(rows) in {Mixed, Flat} <==> exists f :: f in rows && f.tag == TABLE_CONTENT
    ensures EncodingOf(rows) in {Mixed, Structured} <==> exists f :: f in rows && f.tag == TABLE_COMPR
  {
    HasTagMeansOccurs(rows, TABLE_CONTENT);
    HasTagMeansOccurs(rows, TABLE_COMPR);
  }

  lemma {:induction false} HasTagMeansOccurs(rows: seq<Field>, tag: int)
    ensures HasTag(rows, tag) <==> exists f :: f in rows && f.tag == tag
  {
    if rows != [] {
      var front, last := rows[..|rows| - 1], rows[|rows| - 1];
      HasTagMeansOccurs(front, tag);
      assert rows == front + [last];
      if last.tag == tag {
        assert last in rows;
      } else if HasTag(front, tag) {
        var f :| f in front && f.tag == tag;
        assert f in rows;
      }
    }
  }

  function DecodedRows(h: Header, rows: seq<Field>): (r: seq<Bytes>)
    ensures |r| == |rows| && forall k :: 0 <= k < |rows| ==> r[k] == RowBytes(h, rows[k])
  {
    seq(|rows|, k requires 0 <= k < |rows| => RowBytes(h, rows[k]))
  }

  function TableOf(name: Units, h: Header, rows: seq<Field>): TableValue {
    var decoded := DecodedRows(h, rows);
    TableValue(name, h.width, if rows == [] then h.width else |decoded[0]|, EncodingOf(rows), decoded)
  }

  function Joined(chunks: seq<Bytes>): (r: Bytes)
    ensures |r| == TotalBytes(chunks)
  {
    if chunks == [] then [] else chunks[0] + Joined(chunks[1..])
  }

  /** A reply with one more record taken in. */
  function Added(reply: Reply, r: Record): Reply
    requires RecordSound(r)
  {
    match r
    case Ignored(_) => reply
    case Requested(raw) => reply.(requested := reply.requested + [NameOf(raw).value])
    case Scalar(raw, value) => reply.(scalars := reply.scalars + [ScalarValue(NameOf(raw).value, value)])
    case Table(raw, header, rows) => reply.(tables := reply.tables + [TableOf(NameOf(raw).value, HeaderOf(header).value, rows)])
    case Xrfc(chunks) => reply.(xrfc := reply.xrfc + [XrfcValue(Joined(chunks), |chunks|)])
  }

  function Collected(reply: Reply, records: seq<Record>): Reply
    requires forall k :: 0 <= k < |records| ==> RecordSound(records[k])
    decreases |records|
  {
    if records == [] then reply else Collected(Added(reply, records[0]), records[1..])
  }

  lemma {:induction false} AcceptedAreSound(records: seq<Record>, taken: set<Units>)
    requires Accepts(records, taken)
    ensures forall k :: 0 <= k < |records| ==> RecordSound(records[k])
    decreases |records|
  {
    if records != [] {
      AcceptedAreSound(records[1..], taken + Claimed(records[0]));
      forall k | 0 <= k < |records| ensures RecordSound(records[k]) {
        assert k > 0 ==> records[k] == records[1..][k - 1];
      }
    }
  }

  function ReplyFrom(fields: seq<Field>, i: nat, taken: set<Units>, reply: Reply): Result<Reply, Error>
    requires i <= |fields|
  {
    match RecordsFrom(fields, i, taken)
    case Err(e) => Err(e)
    case Ok(records) =>
      GroupedRecordsFollow(fields, i, taken);
      FollowingIsSpelling(fields, i, taken, records);
      AcceptedAreSound(records, taken);
      Ok(Collected(reply, records))
  }

  /** The whole decoder. */
  function Decoded(fields: seq<Field>): Result<Reply, Error> {
    if |fields| > MAX_FIELD_COUNT then Err(TooManyFields)
    else if ValueBytes(fields) > MAX_CHAIN_LENGTH then Err(TooManyBytes)
    else
      match TableBytesFrom(fields, 0, 0)
      case Err(e) => Err(e)
      case Ok(_) => ReplyFrom(fields, 0, {}, EMPTY_REPLY)
  }

  // ---------------------------------------------------------------- agreement of scan and decoder

  predicate TableFault(e: Error) {
    e == RowEmpty || e == RowTooWide || e == RowExpandsTooFar || e == RowCountMismatch
  }

  /** The bytes the rows of a table record decode to. */
  function RecordBytes(r: Record): nat {
    if r.Table? && HeaderOf(r.header).Ok? then TotalBytes(DecodedRows(HeaderOf(r.header).value, r.rows)) else 0
  }

  function DecodedBytes(records: seq<Record>): nat {
    if records == [] then 0 else RecordBytes(records[0]) + DecodedBytes(records[1..])
  }

  lemma {:induction false} TotalBytesAppend(a: seq<Bytes>, b: Bytes)
    ensures TotalBytes(a + [b]) == TotalBytes(a) + |b|
  {
    if a != [] {
      TotalBytesAppend(a[1..], b);
      assert (a + [b])[1..] == a[1..] + [b];
    }
  }

  /** Counted without decoding, a table has the size its decoded rows have. */
  lemma {:induction false} RowsSizeIsDecodedSize(h: Header, rows: seq<Field>)
    requires Faultless(h, rows)
    ensures RowsSize(h, rows) == TotalBytes(DecodedRows(h, rows))
  {
    if rows != [] {
      var front, last := rows[..|rows| - 1], rows[|rows| - 1];
      LastIsFaultless(h, rows);
      RowsSizeIsDecodedSize(h, front);
      RowSizeIsExact(h, last);
      DecodedLast(h, rows);
      TotalBytesAppend(DecodedRows(h, front), RowBytes(h, last));
    }
  }

  lemma {:induction false} DecodedLast(h: Header, rows: seq<Field>)
    requires rows != []
    ensures DecodedRows(h, rows) == DecodedRows(h, rows[..|rows| - 1]) + [RowBytes(h, rows[|rows| - 1])]
  {}

  lemma {:induction false} LastIsFaultless(h: Header, rows: seq<Field>)
    requires Faultless(h, rows) && rows != []
    ensures Faultless(h, rows[..|rows| - 1]) && IsRow(rows[|rows| - 1]) && RowFault(h, rows[|rows| - 1]) == None
  {
    if |rows| > 1 {
      LastIsFaultless(h, rows[1..]);
      assert rows[1..][..|rows| - 2] == rows[..|rows| - 1][1..];
    }
  }

  lemma {:induction false} RowSizeIsExact(h: Header, row: Field)
    requires IsRow(row) && RowFault(h, row) == None
    ensures RowSize(h, row) == |RowBytes(h, row)|
  {}

  lemma {:induction false} ScanSkips(fields: seq<Field>, i: nat, n: nat, total: nat)
    requires i + n <= |fields| && forall k :: i <= k < i + n ==> fields[k].tag != TABLE_NAME
    ensures TableBytesFrom(fields, i, total) == TableBytesFrom(fields, i + n, total)
    decreases n
  {
    if n > 0 {
      ScanSkips(fields, i + 1, n - 1, total);
    }
  }

  lemma {:induction false} OtherRecordIsSkipped(fields: seq<Field>, i: nat, r: Record, total: nat)
    requires SpelledAt(fields, i, r) && RecordSound(r) && !r.Table?
    ensures TableBytesFrom(fields, i, total) == TableBytesFrom(fields, i + Width(r), total)
  {
    if r.Xrfc? {
      HasChunksHasNoTable(fields, i + 1, r.chunks);
    }
    ScanSkips(fields, i, Width(r), total);
  }

  lemma {:induction false} HasChunksHasNoTable(fields: seq<Field>, i: nat, chunks: seq<Bytes>)
    requires HasChunks(fields, i, chunks) && i + |chunks| <= |fields|
    ensures forall k :: i <= k < i + |chunks| ==> fields[k].tag != TABLE_NAME
    decreases |chunks|
  {
    if chunks != [] {
      HasChunksHasNoTable(fields, i + 1, chunks[1..]);
    }
  }

  lemma {:induction false} TableIsMeasured(fields: seq<Field>, i: nat, r: Record)
    requires SpelledAt(fields, i, r) && RecordSound(r) && r.Table?
    ensures fields[i].tag == TABLE_NAME && fields[i + 1].tag == TABLE_HEADER
    ensures ScanTable(fields, i) == Ok(Scanned(|r.rows|, RecordBytes(r)))
  {
    var h := HeaderOf(r.header).value;
    RowsAreFound(fields, i + 2, h, r.rows);
    RowsSizeIsDecodedSize(h, r.rows);
  }

  lemma {:induction false} RecordIsScanned(fields: seq<Field>, i: nat, total: nat, r: Record)
    requires SpelledAt(fields, i, r) && RecordSound(r) && TableBytesFrom(fields, i, total).Ok?
    ensures TableBytesFrom(fields, i, total) == TableBytesFrom(fields, i + Width(r), total + RecordBytes(r))
  {
    if r.Table? {
      TableIsMeasured(fields, i, r);
    } else {
      OtherRecordIsSkipped(fields, i, r, total);
    }
  }

  lemma {:induction false} TableFaultIsScanned(fields: seq<Field>, i: nat, taken: set<Units>, total: nat)
    requires i < |fields| && TableBytesFrom(fields, i, total).Ok?
    requires RecordAt(fields, i, taken).Err?
    ensures !TableFault(RecordAt(fields, i, taken).error)
  {
    if fields[i].tag == XRFC_PARAMETER && XrfcAt(fields, i).Err? {
      ChunkFaults(fields, i + 1, 0);
    }
  }

  lemma {:induction false} ChunkFaults(fields: seq<Field>, i: nat, sofar: nat)
    ensures ChunksAt(fields, i, sofar).Err? ==>
              ChunksAt(fields, i, sofar).error == XrfcChunkEmpty || ChunksAt(fields, i, sofar).error == XrfcTooLong
    decreases |fields| - i
  {
    if TagAt(fields, i) == XRFC_DATA && |fields[i].value| > 0 {
      ChunkFaults(fields, i + 1, sofar + |fields[i].value|);
    }
  }

  /** No row or row count is rejected; and if all is accepted, the totals are the same. */
  predicate Agrees(scan: Result<nat, Error>, total: nat, grouped: Result<seq<Record>, Error>) {
    match grouped
    case Err(e) => !TableFault(e)
    case Ok(records) => scan == Ok(total + DecodedBytes(records))
  }

  /** After the scan has passed, the grouping agrees with it. */
  lemma {:induction false} ScanAgreesWithGrouping(fields: seq<Field>, i: nat, taken: set<Units>, total: nat)
    requires i <= |fields| && TableBytesFrom(fields, i, total).Ok?
    ensures Agrees(TableBytesFrom(fields, i, total), total, RecordsFrom(fields, i, taken))
    decreases |fields| - i
  {
    if i < |fields| {
      match RecordAt(fields, i, taken)
      case Err(_) => TableFaultIsScanned(fields, i, taken, total);
      case Ok(r) =>
        FoundIffFits(fields, i, taken, r);
        ScanAgreesInRest(fields, i, taken, total, r);
    }
  }

  lemma {:induction false} ScanAgreesInRest(fields: seq<Field>, i: nat, taken: set<Units>, total: nat, r: Record)
    requires SpelledAt(fields, i, r) && RecordSound(r) && TableBytesFrom(fields, i, total).Ok?
    ensures Agrees(TableBytesFrom(fields, i, total), total, Prepended(r, RecordsFrom(fields, i + Width(r), taken + Claimed(r))))
    decreases |fields| - i, 0
  {
    RecordIsScanned(fields, i, total, r);
    ScanAgreesWithGrouping(fields, i + Width(r), taken + Claimed(r), total + RecordBytes(r));
    AgreementExtends(TableBytesFrom(fields, i, total), total, r, RecordsFrom(fields, i + Width(r), taken + Claimed(r)));
  }

  lemma {:induction false} AgreementExtends(scan: Result<nat, Error>, total: nat, r: Record,
      rest: Result<seq<Record>, Error>)
    requires Agrees(scan, total + RecordBytes(r), rest)
    ensures Agrees(scan, total, Prepended(r, rest))
  {
    if rest.Ok? {
      assert ([r] + rest.value)[1..] == rest.value;
    }
  }

  // ---------------------------------------------------------------- the xRFC limit

  lemma {:induction false} ValueBytesSplit(fields: seq<Field>, i: nat)
    requires i <= |fields|
    ensures ValueBytes(fields) == ValueBytes(fields[..i]) + ValueBytes(fields[i..])
    decreases |fields|
  {
    if i == |fields| {
      assert fields[..i] == fields && fields[i..] == [];
    } else {
      var n := |fields| - 1;
      ValueBytesSplit(fields[..n], i);
      assert fields[..n][..i] == fields[..i] && fields[..n][i..] == fields[i..][..n - i];
    }
  }

  lemma {:induction false} ValueBytesFirst(fields: seq<Field>, i: nat)
    requires i < |fields|
    ensures ValueBytes(fields[i..]) == |fields[i].value| + ValueBytes(fields[i + 1..])
  {
    ValueBytesSplit(fields[i..], 1);
    assert fields[i..][1..] == fields[i + 1..];
    var first := fields[i..][..1];
    assert first[..0] == [] && first[0] == fields[i];
    assert ValueBytes(first) == ValueBytes(first[..0]) + |first[0].value|;
  }

  /** The bound on all values already bounds the chunks of one xRFC parameter. */
  lemma {:induction false} ChunksWithinTotal(fields: seq<Field>, i: nat, sofar: nat)
    requires i <= |fields| && sofar + ValueBytes(fields[i..]) <= MAX_CHAIN_LENGTH
    ensures ChunksAt(fields, i, sofar) != Err(XrfcTooLong)
    decreases |fields| - i
  {
    if TagAt(fields, i) == XRFC_DATA {
      ValueBytesFirst(fields, i);
      ChunksWithinTotal(fields, i + 1, sofar + |fields[i].value|);
    }
  }

  lemma {:induction false} RecordNeverTooLong(fields: seq<Field>, i: nat, taken: set<Units>)
    requires i < |fields| && ValueBytes(fields) <= MAX_CHAIN_LENGTH
    ensures RecordAt(fields, i, taken) != Err(XrfcTooLong)
  {
    if fields[i].tag == XRFC_PARAMETER {
      ValueBytesSplit(fields, i + 1);
      ChunksWithinTotal(fields, i + 1, 0);
    } else if fields[i].tag == TABLE_NAME && TagAt(fields, i + 1) == TABLE_HEADER && HeaderOf(fields[i + 1].value).Ok? {
      var h := HeaderOf(fields[i + 1].value).value;
      RowFaults(fields, i + 2, h, h.count);
    }
  }

  lemma {:induction false} RowFaults(fields: seq<Field>, i: nat, h: Header, n: nat)
    ensures RowsAt(fields, i, h, n).Err? ==> TableFault(RowsAt(fields, i, h, n).error)
    decreases n
  {
    if n > 0 && i < |fields| && IsRow(fields[i]) {
      RowFaults(fields, i + 1, h, n - 1);
    }
  }

  lemma {:induction false} GroupingNeverTooLong(fields: seq<Field>, i: nat, taken: set<Units>)
    requires i <= |fields| && ValueBytes(fields) <= MAX_CHAIN_LENGTH
    ensures RecordsFrom(fields, i, taken) != Err(XrfcTooLong)
    decreases |fields| - i
  {
    if i < |fields| {
      RecordNeverTooLong(fields, i, taken);
      match RecordAt(fields, i, taken)
      case Err(_) =>
      case Ok(r) =>
        FoundIffFits(fields, i, taken, r);
        RestNeverTooLong(fields, i, taken, r);
    }
  }

  lemma {:induction false} RestNeverTooLong(fields: seq<Field>, i: nat, taken: set<Units>, r: Record)
    requires SpelledAt(fields, i, r) && ValueBytes(fields) <= MAX_CHAIN_LENGTH
    ensures Prepended(r, RecordsFrom(fields, i + Width(r), taken + Claimed(r))) != Err(XrfcTooLong)
    decreases |fields| - i, 0
  {
    GroupingNeverTooLong(fields, i + Width(r), taken + Claimed(r));
  }

  // ---------------------------------------------------------------- the theorems

  /** The scans let a field list through. */
  predicate ScansPass(fields: seq<Field>) {
    |fields| <= MAX_FIELD_COUNT && ValueBytes(fields) <= MAX_CHAIN_LENGTH && TableBytesFrom(fields, 0, 0).Ok?
  }

  /** Once the scans have passed, four rejections of the decoder, and its xRFC length check, cannot happen. */
  lemma {:induction false} RejectionsUnreachable(fields: seq<Field>)
    requires ScansPass(fields) && Decoded(fields).Err?
    ensures !TableFault(Decoded(fields).error) && Decoded(fields).error != XrfcTooLong
  {
    ScanAgreesWithGrouping(fields, 0, {}, 0);
    GroupingNeverTooLong(fields, 0, {});
  }

  /**
   * A reply is accepted exactly when the scans pass and its fields are sound records spelled
   * one after another, with no name claimed twice; the reply collects those records, and the
   * bytes of its table rows are the scan's total.
   */
  lemma {:induction false} AcceptedIffPartition(fields: seq<Field>)
    ensures Decoded(fields).Ok? <==> ScansPass(fields) && exists records :: IsPartition(fields, records)
  {
    if Decoded(fields).Ok? {
      var records := RecordsFrom(fields, 0, {}).value;
      GroupingIsPartition(fields, 0, {}, records);
      assert fields[0..] == fields;
      assert IsPartition(fields, records);
    }
    if ScansPass(fields) && exists records :: IsPartition(fields, records) {
      var records :| IsPartition(fields, records);
      assert fields[0..] == fields;
      GroupingIsPartition(fields, 0, {}, records);
    }
  }

  ghost predicate IsPartition(fields: seq<Field>, records: seq<Record>) {
    fields == SpelledAll(records) && Accepts(records, {})
  }

  lemma {:induction false} ReplyCollectsPartition(fields: seq<Field>, records: seq<Record>)
    requires Decoded(fields).Ok? && IsPartition(fields, records)
    ensures forall k :: 0 <= k < |records| ==> RecordSound(records[k])
    ensures Decoded(fields).value == Collected(EMPTY_REPLY, records)
    ensures TableBytesFrom(fields, 0, 0) == Ok(DecodedBytes(records))
  {
    assert fields[0..] == fields;
    GroupingIsPartition(fields, 0, {}, records);
    AcceptedAreSound(records, {});
    ScanAgreesWithGrouping(fields, 0, {}, 0);
  }

  /** The number of fields a reply accounts for, apart from the ignored ones. */
  function FieldsIn(reply: Reply): nat {
    |reply.requested| + 2 * |reply.scalars| + TableFields(reply.tables) + XrfcFields(reply.xrfc)
  }

  function TableFields(tables: seq<TableValue>): nat {
    if tables == [] then 0 else TableFields(tables[..|tables| - 1]) + 2 + |tables[|tables| - 1].rows|
  }

  function XrfcFields(xrfc: seq<XrfcValue>): nat {
    if xrfc == [] then 0 else XrfcFields(xrfc[..|xrfc| - 1]) + 2 + xrfc[|xrfc| - 1].chunkCount
  }

  function IgnoredCount(records: seq<Record>): nat {
    if records == [] then 0 else (if records[0].Ignored? then 1 else 0) + IgnoredCount(records[1..])
  }

  lemma {:induction false} RecordAccountsForItsFields(reply: Reply, r: Record)
    requires RecordSound(r)
    ensures FieldsIn(Added(reply, r)) + (if r.Ignored? then 1 else 0) == FieldsIn(reply) + |Spelled(r)|
  {
    SpelledAtIsSpelled([], 0, r);
    match r
    case Table(raw, header, rows) =>
      var t := TableOf(NameOf(raw).value, HeaderOf(header).value, rows);
      assert (reply.tables + [t])[..|reply.tables|] == reply.tables;
    case Xrfc(chunks) => assert (reply.xrfc + [XrfcValue(Joined(chunks), |chunks|)])[..|reply.xrfc|] == reply.xrfc;
    case _ =>
  }

  /** Scalars take two fields, tables two and their rows, xRFC parameters two and their chunks; nothing is left. */
  lemma {:induction false} EveryFieldAccountedFor(records: seq<Record>, reply: Reply)
    requires forall k :: 0 <= k < |records| ==> RecordSound(records[k])
    ensures |SpelledAll(records)| + FieldsIn(reply) == IgnoredCount(records) + FieldsIn(Collected(reply, records))
    decreases |records|
  {
    if records != [] {
      assert RecordSound(records[0]);
      RecordAccountsForItsFields(reply, records[0]);
      EveryFieldAccountedFor(records[1..], Added(reply, records[0]));
    }
  }
}
