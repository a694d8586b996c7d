/**
 * Grouping the field list of a classic RFC reply into scalars, tables and xRFC parameters, and
 * the scan that bounds the decoded size beforehand. The grouping is specified by recursive
 * functions, proved to be the inverse of spelling records out as fields, and then refined by
 * the index loops.
 */
module ClassicResult {
  import opened Text
  import opened Wrappers
  import S = Scalars

  datatype Field = Field(tag: int, value: Bytes)

  const PARAMETER_NAME := 0x0201
  const PARAMETER_VALUE := 0x0203
  const REQUESTED_OUTPUT := 0x0205
  const TABLE_NAME := 0x0301
  const TABLE_HEADER := 0x0302
  const TABLE_CONTENT := 0x0303
  const TABLE_COMPR := 0x0304
  const XRFC_PARAMETER := 0x3c02
  const XRFC_DATA := 0x3c05

  const MAX_FIELD_LENGTH: nat := 256 * 1024 * 1024
  const MAX_CHAIN_LENGTH: nat := 256 * 1024 * 1024
  const MAX_FIELD_COUNT: nat := 100_000

  datatype Error =
    | TooManyFields | TooManyBytes | TableTooLarge | ResultTooLarge
    | BadName | Duplicate | UnsupportedTag
    | StrayXrfcData | XrfcOpeningNotEmpty | XrfcChunkEmpty | XrfcTooLong | XrfcNoData | XrfcNotClosed | XrfcClosingNotEmpty
    | StrayValue | ScalarWithoutValue
    | StrayTableRecord | TableWithoutHeader | BadHeader
    | RowEmpty | RowTooWide | RowExpandsTooFar | RowCountMismatch

  /** Tags that carry nothing for the application. */
  predicate IsIgnored(tag: int) {
    tag == 0x0503 || tag == 0x0514 || tag == 0x0420 || tag == 0x0512 || tag == 0x0130 || tag == 0x0667 || tag == 0xffff
  }

  predicate IsRow(f: Field) {
    f.tag == TABLE_CONTENT || f.tag == TABLE_COMPR
  }

  function TagAt(fields: seq<Field>, i: nat): int {
    if i < |fields| then fields[i].tag else -1
  }

  /** A parameter name: text without padding, not empty, no control characters. */
  function NameOf(raw: Bytes): Result<Units, Error> {
    match S.DecodeAbapChar(raw, None)
    case Err(_) => Err(BadName)
    case Ok(name) => if name == [] || exists c :: c in name && (c < 0x20 || c == 0x7F) then Err(BadName) else Ok(name)
  }

  datatype Header = Header(width: nat, count: nat)

  function BigEndian32(b: Bytes): nat
    requires |b| == 4
  {
    ((Number(b[0]) * 0x100 + Number(b[1])) * 0x100 + Number(b[2])) * 0x100 + Number(b[3])
  }

  function HeaderOf(raw: Bytes): Result<Header, Error> {
    if |raw| != 8 then Err(BadHeader) else Ok(Header(BigEndian32(raw[..4]), BigEndian32(raw[4..])))
  }

  /** What is wrong with one row, in the order of the checks. */
  function RowFault(h: Header, row: Field): Option<Error> {
    if |row.value| == 0 then Some(RowEmpty)
    else if |row.value| > h.width then Some(RowTooWide)
    else if row.tag == TABLE_COMPR && |row.value| < h.width && h.width > MAX_FIELD_LENGTH then Some(RowExpandsTooFar)
    else None
  }

  /** A simple-compressed row repeats its last byte up to the declared width. */
  function RowBytes(h: Header, row: Field): Bytes {
    if row.tag == TABLE_COMPR && 0 < |row.value| < h.width then
      row.value + S.Repeat(row.value[|row.value| - 1], h.width - |row.value|)
    else row.value
  }

  /** The next n rows, or the first fault among them. */
  function RowsAt(fields: seq<Field>, i: nat, h: Header, n: nat): Result<seq<Field>, Error>
    decreases n
  {
    if n == 0 then Ok([])
    else if i >= |fields| || !IsRow(fields[i]) then Err(RowCountMismatch)
    else if RowFault(h, fields[i]).Some? then Err(RowFault(h, fields[i]).value)
    else
      match RowsAt(fields, i + 1, h, n - 1)
      case Err(e) => Err(e)
      case Ok(rest) => Ok([fields[i]] + rest)
  }

  /** The fields from a position on begin with the given ones. */
  predicate Has(fields: seq<Field>, i: nat, piece: seq<Field>)
    decreases |piece|
  {
    if piece == [] then i <= |fields| else i < |fields| && fields[i] == piece[0] && Has(fields, i + 1, piece[1..])
  }

  lemma {:induction false} HasCons(fields: seq<Field>, i: nat, first: Field, rest: seq<Field>)
    ensures Has(fields, i, [first] + rest) <==> i < |fields| && fields[i] == first && Has(fields, i + 1, rest)
  {
    var piece := [first] + rest;
    assert piece[1..] == rest;
  }

  lemma {:induction false} HasJoin(fields: seq<Field>, i: nat, a: seq<Field>, b: seq<Field>)
    ensures Has(fields, i, a + b) <==> Has(fields, i, a) && Has(fields, i + |a|, b)
    decreases |a|
  {
    if a == [] {
      assert a + b == b;
      if Has(fields, i, b) {
        HasFits(fields, i, b);
      }
    } else {
      HasJoin(fields, i + 1, a[1..], b);
      assert (a + b)[1..] == a[1..] + b;
    }
  }

  lemma {:induction false} HasFits(fields: seq<Field>, i: nat, piece: seq<Field>)
    requires Has(fields, i, piece)
    ensures i + |piece| <= |fields|
    decreases |piece|
  {
    if piece != [] {
      HasFits(fields, i + 1, piece[1..]);
    }
  }

  /** Up to the end of the fields, having a piece is being equal to it. */
  lemma {:induction false} HasToTheEnd(fields: seq<Field>, i: nat, piece: seq<Field>)
    requires i <= |fields|
    ensures Has(fields, i, piece) && i + |piece| == |fields| <==> fields[i..] == piece
    decreases |piece|
  {
    if piece != [] && i < |fields| {
      HasToTheEnd(fields, i + 1, piece[1..]);
      assert fields[i..] == [fields[i]] + fields[i + 1..];
      assert piece == [piece[0]] + piece[1..];
    }
  }

  /** Rows without a fault. */
  predicate Faultless(h: Header, rows: seq<Field>) {
    rows == [] || (IsRow(rows[0]) && RowFault(h, rows[0]) == None && Faultless(h, rows[1..]))
  }

  lemma {:induction false} RowsFound(fields: seq<Field>, i: nat, h: Header, n: nat)
    requires i <= |fields| && RowsAt(fields, i, h, n).Ok?
    ensures i + n <= |fields|
    ensures
      var rows := RowsAt(fields, i, h, n).value;
      |rows| == n && Has(fields, i, rows) && Faultless(h, rows)
    decreases n
  {
    if n > 0 {
      RowsFound(fields, i + 1, h, n - 1);
      var rest := RowsAt(fields, i + 1, h, n - 1).value;
      HasCons(fields, i, fields[i], rest);
      assert ([fields[i]] + rest)[1..] == rest;
    }
  }

  // ---------------------------------------------------------------- records

  /** One group of fields, with the bytes it was read from. */
  datatype Record =
    | Ignored(field: Field)
    | Requested(raw: Bytes)
    | Scalar(raw: Bytes, value: Bytes)
    | Table(raw: Bytes, header: Bytes, rows: seq<Field>)
    | Xrfc(chunks: seq<Bytes>)

  function ChunkFields(chunks: seq<Bytes>): (r: seq<Field>)
    ensures |r| == |chunks|
  {
    if chunks == [] then [] else [Field(XRFC_DATA, chunks[0])] + ChunkFields(chunks[1..])
  }

  /** The fields a record stands for. */
  function Spelled(r: Record): seq<Field> {
    match r
    case Ignored(field) => [field]
    case Requested(raw) => [Field(REQUESTED_OUTPUT, raw)]
    case Scalar(raw, value) => [Field(PARAMETER_NAME, raw)] + [Field(PARAMETER_VALUE, value)]
    case Table(raw, header, rows) => [Field(TABLE_NAME, raw)] + ([Field(TABLE_HEADER, header)] + rows)
    case Xrfc(chunks) => [Field(XRFC_PARAMETER, [])] + (ChunkFields(chunks) + [Field(XRFC_PARAMETER, [])])
  }

  /** How many fields a record stands for. */
  function Width(r: Record): nat {
    match r
    case Ignored(_) => 1
    case Requested(_) => 1
    case Scalar(_, _) => 2
    case Table(_, _, rows) => 2 + |rows|
    case Xrfc(chunks) => 2 + |chunks|
  }

  function SpelledAll(records: seq<Record>): seq<Field> {
    if records == [] then [] else Spelled(records[0]) + SpelledAll(records[1..])
  }

  function TotalBytes(chunks: seq<Bytes>): nat {
    if chunks == [] then 0 else |chunks[0]| + TotalBytes(chunks[1..])
  }

  predicate RowsSound(h: Header, rows: seq<Field>) {
    |rows| == h.count && Faultless(h, rows)
  }

  predicate NoneEmpty(chunks: seq<Bytes>) {
    chunks == [] || (chunks[0] != [] && NoneEmpty(chunks[1..]))
  }

  predicate RecordSound(r: Record) {
    match r
    case Ignored(field) => IsIgnored(field.tag)
    case Requested(raw) => NameOf(raw).Ok?
    case Scalar(raw, _) => NameOf(raw).Ok?
    case Table(raw, header, rows) => NameOf(raw).Ok? && HeaderOf(header).Ok? && RowsSound(HeaderOf(header).value, rows)
    case Xrfc(chunks) => chunks != [] && NoneEmpty(chunks) && TotalBytes(chunks) <= MAX_CHAIN_LENGTH
  }

  /** The parameter name a record claims, as a set of at most one. */
  function Claimed(r: Record): set<Units> {
    if (r.Scalar? || r.Table?) && NameOf(r.raw).Ok? then {NameOf(r.raw).value} else {}
  }

  /** Sound records, no two of which claim the same name (nor one of those taken before). */
  predicate Accepts(records: seq<Record>, taken: set<Units>) {
    records == [] || (RecordSound(records[0]) && Claimed(records[0]) !! taken && Accepts(records[1..], taken + Claimed(records[0])))
  }

  // ---------------------------------------------------------------- grouping

  function ChunksAt(fields: seq<Field>, i: nat, sofar: nat): Result<seq<Bytes>, Error>
    decreases |fields| - i
  {
    if TagAt(fields, i) != XRFC_DATA then Ok([])
    else if |fields[i].value| == 0 then Err(XrfcChunkEmpty)
    else if sofar + |fields[i].value| > MAX_CHAIN_LENGTH then Err(XrfcTooLong)
    else
      match ChunksAt(fields, i + 1, sofar + |fields[i].value|)
      case Err(e) => Err(e)
      case Ok(rest) => Ok([fields[i].value] + rest)
  }

  function XrfcAt(fields: seq<Field>, i: nat): Result<Record, Error>
    requires i < |fields|
  {
    if |fields[i].value| != 0 then Err(XrfcOpeningNotEmpty)
    else
      match ChunksAt(fields, i + 1, 0)
      case Err(e) => Err(e)
      case Ok(chunks) =>
        var closing := i + 1 + |chunks|;
        if chunks == [] then Err(XrfcNoData)
        else if TagAt(fields, closing) != XRFC_PARAMETER then Err(XrfcNotClosed)
        else if |fields[closing].value| != 0 then Err(XrfcClosingNotEmpty)
        else Ok(Xrfc(chunks))
  }

  function ScalarAt(fields: seq<Field>, i: nat, taken: set<Units>): Result<Record, Error>
    requires i < |fields|
  {
    match NameOf(fields[i].value)
    case Err(e) => Err(e)
    case Ok(name) =>
      if TagAt(fields, i + 1) != PARAMETER_VALUE then Err(ScalarWithoutValue)
      else if name in taken then Err(Duplicate)
      else Ok(Scalar(fields[i].value, fields[i + 1].value))
  }

  function TableAt(fields: seq<Field>, i: nat, taken: set<Units>): Result<Record, Error>
    requires i < |fields|
  {
    match NameOf(fields[i].value)
    case Err(e) => Err(e)
    case Ok(name) =>
      if TagAt(fields, i + 1) != TABLE_HEADER then Err(TableWithoutHeader)
      else if name in taken then Err(Duplicate)
      else
        match HeaderOf(fields[i + 1].value)
        case Err(e) => Err(e)
        case Ok(h) =>
          match RowsAt(fields, i + 2, h, h.count)
          case Err(e) => Err(e)
          case Ok(rows) => Ok(Table(fields[i].value, fields[i + 1].value, rows))
  }

  /** The record that starts at a position. */
  function RecordAt(fields: seq<Field>, i: nat, taken: set<Units>): (r: Result<Record, Error>)
    requires i < |fields|
  {
    var f := fields[i];
    if IsIgnored(f.tag) then Ok(Ignored(f))
    else if f.tag == REQUESTED_OUTPUT then
      match NameOf(f.value)
      case Err(e) => Err(e)
      case Ok(_) => Ok(Requested(f.value))
    else if f.tag == XRFC_DATA then Err(StrayXrfcData)
    else if f.tag == XRFC_PARAMETER then XrfcAt(fields, i)
    else if f.tag == PARAMETER_VALUE then Err(StrayValue)
    else if f.tag == TABLE_HEADER || IsRow(f) then Err(StrayTableRecord)
    else if f.tag == PARAMETER_NAME then ScalarAt(fields, i, taken)
    else if f.tag == TABLE_NAME then TableAt(fields, i, taken)
    else Err(UnsupportedTag)
  }

  /** The fields from a position on are the chunks. */
  predicate HasChunks(fields: seq<Field>, i: nat, chunks: seq<Bytes>)
    decreases |chunks|
  {
    if chunks == [] then i <= |fields|
    else i < |fields| && fields[i] == Field(XRFC_DATA, chunks[0]) && HasChunks(fields, i + 1, chunks[1..])
  }

  lemma {:induction false} ChunksFound(fields: seq<Field>, i: nat, sofar: nat)
    requires i <= |fields| && ChunksAt(fields, i, sofar).Ok?
    ensures
      var chunks := ChunksAt(fields, i, sofar).value;
      && i + |chunks| <= |fields| && HasChunks(fields, i, chunks) && NoneEmpty(chunks)
      && (chunks != [] ==> sofar + TotalBytes(chunks) <= MAX_CHAIN_LENGTH)
    decreases |fields| - i
  {
    if TagAt(fields, i) == XRFC_DATA {
      var chunk := fields[i].value;
      ChunksFound(fields, i + 1, sofar + |chunk|);
      var rest := ChunksAt(fields, i + 1, sofar + |chunk|).value;
      assert ([chunk] + rest)[1..] == rest;
    }
  }

  /** The fields at a position are those of a record, whatever follows. */
  predicate SpelledAt(fields: seq<Field>, i: nat, r: Record) {
    && i + Width(r) <= |fields|
    && match r
       case Ignored(field) => fields[i] == field
       case Requested(raw) => fields[i] == Field(REQUESTED_OUTPUT, raw)
       case Scalar(raw, value) => fields[i] == Field(PARAMETER_NAME, raw) && fields[i + 1] == Field(PARAMETER_VALUE, value)
       case Table(raw, header, rows) =>
         fields[i] == Field(TABLE_NAME, raw) && fields[i + 1] == Field(TABLE_HEADER, header) && Has(fields, i + 2, rows)
       case Xrfc(chunks) =>
         && fields[i] == Field(XRFC_PARAMETER, []) && fields[i + 1 + |chunks|] == Field(XRFC_PARAMETER, [])
         && HasChunks(fields, i + 1, chunks)
  }

  lemma {:induction false} HasChunksIsHas(fields: seq<Field>, i: nat, chunks: seq<Bytes>)
    ensures HasChunks(fields, i, chunks) <==> Has(fields, i, ChunkFields(chunks))
    decreases |chunks|
  {
    if chunks != [] {
      HasChunksIsHas(fields, i + 1, chunks[1..]);
      HasCons(fields, i, Field(XRFC_DATA, chunks[0]), ChunkFields(chunks[1..]));
    }
  }

  lemma {:induction false} HasOne(fields: seq<Field>, i: nat, field: Field)
    ensures Has(fields, i, [field]) <==> i < |fields| && fields[i] == field
  {
    HasCons(fields, i, field, []);
    assert [field] + [] == [field];
  }

  /** A record is spelled at a position when the fields there are the spelled ones. */
  lemma {:induction false} SpelledAtIsSpelled(fields: seq<Field>, i: nat, r: Record)
    ensures |Spelled(r)| == Width(r)
    ensures SpelledAt(fields, i, r) <==> Has(fields, i, Spelled(r))
  {
    match r
    case Ignored(field) => HasOne(fields, i, field);
    case Requested(raw) => HasOne(fields, i, Field(REQUESTED_OUTPUT, raw));
    case Scalar(raw, value) =>
      HasCons(fields, i, Field(PARAMETER_NAME, raw), [Field(PARAMETER_VALUE, value)]);
      HasOne(fields, i + 1, Field(PARAMETER_VALUE, value));
    case Table(raw, header, rows) =>
      HasCons(fields, i, Field(TABLE_NAME, raw), [Field(TABLE_HEADER, header)] + rows);
      HasCons(fields, i + 1, Field(TABLE_HEADER, header), rows);
      if Has(fields, i + 2, rows) {
        HasFits(fields, i + 2, rows);
      }
    case Xrfc(chunks) => SpelledXrfc(fields, i, chunks);
  }

  lemma {:induction false} SpelledXrfc(fields: seq<Field>, i: nat, chunks: seq<Bytes>)
    ensures SpelledAt(fields, i, Xrfc(chunks)) <==> Has(fields, i, Spelled(Xrfc(chunks)))
  {
    var boundary := Field(XRFC_PARAMETER, []);
    HasCons(fields, i, boundary, ChunkFields(chunks) + [boundary]);
    HasJoin(fields, i + 1, ChunkFields(chunks), [boundary]);
    HasOne(fields, i + 1 + |chunks|, boundary);
    HasChunksIsHas(fields, i + 1, chunks);
  }

  /** A record that is found spells exactly the fields at its place, and is sound. */
  lemma {:induction false} FoundRecordSpells(fields: seq<Field>, i: nat, taken: set<Units>)
    requires i < |fields| && RecordAt(fields, i, taken).Ok?
    ensures
      var r := RecordAt(fields, i, taken).value;
      SpelledAt(fields, i, r) && RecordSound(r) && Claimed(r) !! taken
  {
    var tag := fields[i].tag;
    if tag == XRFC_PARAMETER {
      FoundXrfcSpells(fields, i);
    } else if tag == TABLE_NAME {
      FoundTableSpells(fields, i, taken);
    }
  }

  lemma {:induction false} FoundTableSpells(fields: seq<Field>, i: nat, taken: set<Units>)
    requires i < |fields| && fields[i].tag == TABLE_NAME && TableAt(fields, i, taken).Ok?
    ensures
      var r := TableAt(fields, i, taken).value;
      r.Table? && SpelledAt(fields, i, r) && RecordSound(r) && Claimed(r) !! taken
  {
    var r := TableAt(fields, i, taken).value;
    RowsFound(fields, i + 2, HeaderOf(r.header).value, HeaderOf(r.header).value.count);
  }

  lemma {:induction false} FoundXrfcSpells(fields: seq<Field>, i: nat)
    requires i < |fields| && fields[i].tag == XRFC_PARAMETER && XrfcAt(fields, i).Ok?
    ensures XrfcAt(fields, i).value.Xrfc? && SpelledAt(fields, i, XrfcAt(fields, i).value) && RecordSound(XrfcAt(fields, i).value)
  {
    ChunksFound(fields, i + 1, 0);
  }

  lemma {:induction false} RowsAreFound(fields: seq<Field>, i: nat, h: Header, rows: seq<Field>)
    requires Has(fields, i, rows) && Faultless(h, rows)
    ensures RowsAt(fields, i, h, |rows|) == Ok(rows)
    decreases |rows|
  {
    if rows != [] {
      RowsAreFound(fields, i + 1, h, rows[1..]);
      assert [rows[0]] + rows[1..] == rows;
    }
  }

  lemma {:induction false} ChunksAreFound(fields: seq<Field>, i: nat, sofar: nat, chunks: seq<Bytes>)
    requires HasChunks(fields, i, chunks) && NoneEmpty(chunks)
    requires TagAt(fields, i + |chunks|) != XRFC_DATA
    requires sofar + TotalBytes(chunks) <= MAX_CHAIN_LENGTH
    ensures ChunksAt(fields, i, sofar) == Ok(chunks)
    decreases |chunks|
  {
    if chunks != [] {
      ChunksAreFound(fields, i + 1, sofar + |chunks[0]|, chunks[1..]);
      assert [chunks[0]] + chunks[1..] == chunks;
    }
  }

  lemma {:induction false} SpelledTableIsFound(fields: seq<Field>, i: nat, taken: set<Units>, r: Record)
    requires SpelledAt(fields, i, r) && r.Table? && RecordSound(r) && Claimed(r) !! taken
    ensures fields[i].tag == TABLE_NAME && TableAt(fields, i, taken) == Ok(r)
  {
    RowsAreFound(fields, i + 2, HeaderOf(r.header).value, r.rows);
  }

  lemma {:induction false} SpelledXrfcIsFound(fields: seq<Field>, i: nat, r: Record)
    requires SpelledAt(fields, i, r) && r.Xrfc? && RecordSound(r)
    ensures fields[i].tag == XRFC_PARAMETER && XrfcAt(fields, i) == Ok(r)
  {
    ChunksAreFound(fields, i + 1, 0, r.chunks);
  }

  /** A sound record that is spelled at a position is the one found there. */
  lemma {:induction false} SpelledRecordIsFound(fields: seq<Field>, i: nat, taken: set<Units>, r: Record)
    requires SpelledAt(fields, i, r) && RecordSound(r) && Claimed(r) !! taken
    ensures RecordAt(fields, i, taken) == Ok(r)
  {
    if r.Table? {
      SpelledTableIsFound(fields, i, taken, r);
    } else if r.Xrfc? {
      SpelledXrfcIsFound(fields, i, r);
    }
  }

  /** Group everything from a position on. */
  function RecordsFrom(fields: seq<Field>, i: nat, taken: set<Units>): Result<seq<Record>, Error>
    requires i <= |fields|
    decreases |fields| - i
  {
    if i == |fields| then Ok([])
    else
      match RecordAt(fields, i, taken)
      case Err(e) => Err(e)
      case Ok(r) =>
        FoundRecordSpells(fields, i, taken);
        Prepended(r, RecordsFrom(fields, i + Width(r), taken + Claimed(r)))
  }

  function Prepended(r: Record, rest: Result<seq<Record>, Error>): Result<seq<Record>, Error> {
    match rest
    case Err(e) => Err(e)
    case Ok(records) => Ok([r] + records)
  }

  /** A sound record whose name is free, spelled at a position. */
  predicate FitsAt(fields: seq<Field>, i: nat, taken: set<Units>, r: Record) {
    SpelledAt(fields, i, r) && RecordSound(r) && Claimed(r) !! taken
  }

  /** What is found at a position is what fits there. */
  lemma {:induction false} FoundIffFits(fields: seq<Field>, i: nat, taken: set<Units>, r: Record)
    ensures i < |fields| && RecordAt(fields, i, taken) == Ok(r) <==> FitsAt(fields, i, taken, r)
  {
    if i < |fields| && RecordAt(fields, i, taken) == Ok(r) {
      FoundRecordSpells(fields, i, taken);
    }
    if FitsAt(fields, i, taken, r) {
      SpelledRecordIsFound(fields, i, taken, r);
    }
  }

  /** One step of the grouping. */
  lemma {:induction false} GroupingStep(fields: seq<Field>, i: nat, taken: set<Units>, r: Record)
    requires FitsAt(fields, i, taken, r)
    ensures i < |fields| && RecordAt(fields, i, taken) == Ok(r)
    ensures RecordsFrom(fields, i, taken) == Prepended(r, RecordsFrom(fields, i + Width(r), taken + Claimed(r)))
  {
    FoundIffFits(fields, i, taken, r);
  }

  /** The records follow one another from a position to the end of the fields. */
  predicate FollowsFrom(fields: seq<Field>, i: nat, taken: set<Units>, records: seq<Record>)
    decreases |records|
  {
    if records == [] then i == |fields|
    else
      && FitsAt(fields, i, taken, records[0])
      && FollowsFrom(fields, i + Width(records[0]), taken + Claimed(records[0]), records[1..])
  }

  lemma {:induction false} SpelledBefore(fields: seq<Field>, i: nat, r: Record, rest: seq<Field>)
    ensures |Spelled(r) + rest| == Width(r) + |rest|
    ensures Has(fields, i, Spelled(r) + rest) <==> SpelledAt(fields, i, r) && Has(fields, i + Width(r), rest)
  {
    SpelledAtIsSpelled(fields, i, r);
    HasJoin(fields, i, Spelled(r), rest);
  }

  lemma {:induction false} FollowingIsSpelling(fields: seq<Field>, i: nat, taken: set<Units>, records: seq<Record>)
    ensures FollowsFrom(fields, i, taken, records) <==>
              Has(fields, i, SpelledAll(records)) && i + |SpelledAll(records)| == |fields| && Accepts(records, taken)
    decreases |records|
  {
    if records != [] {
      var r := records[0];
      FollowingIsSpelling(fields, i + Width(r), taken + Claimed(r), records[1..]);
      SpelledBefore(fields, i, r, SpelledAll(records[1..]));
    }
  }

  /**
   * Grouping is exactly the inverse of spelling: it succeeds with these records if and only if
   * the fields are the records spelled out one after another, all sound, no name twice. So no
   * field is lost and none is used twice.
   */
  lemma {:induction false} GroupingIsPartition(fields: seq<Field>, i: nat, taken: set<Units>, records: seq<Record>)
    requires i <= |fields|
    ensures RecordsFrom(fields, i, taken) == Ok(records) <==> fields[i..] == SpelledAll(records) && Accepts(records, taken)
  {
    HasToTheEnd(fields, i, SpelledAll(records));
    FollowingIsSpelling(fields, i, taken, records);
    if RecordsFrom(fields, i, taken) == Ok(records) {
      GroupedRecordsFollow(fields, i, taken);
    }
    if FollowsFrom(fields, i, taken, records) {
      FollowingRecordsAreGrouped(fields, i, taken, records);
    }
  }

  lemma {:induction false} GroupedRecordsFollow(fields: seq<Field>, i: nat, taken: set<Units>)
    requires i <= |fields| && RecordsFrom(fields, i, taken).Ok?
    ensures FollowsFrom(fields, i, taken, RecordsFrom(fields, i, taken).value)
    decreases |fields| - i
  {
    if i < |fields| {
      var r := RecordAt(fields, i, taken).value;
      FoundIffFits(fields, i, taken, r);
      GroupedRecordsFollow(fields, i + Width(r), taken + Claimed(r));
      OneMoreFollows(fields, i, taken, r, RecordsFrom(fields, i + Width(r), taken + Claimed(r)).value);
    }
  }

  lemma {:induction false} OneMoreFollows(fields: seq<Field>, i: nat, taken: set<Units>, r: Record, rest: seq<Record>)
    requires FitsAt(fields, i, taken, r) && FollowsFrom(fields, i + Width(r), taken + Claimed(r), rest)
    ensures FollowsFrom(fields, i, taken, [r] + rest)
  {
    assert ([r] + rest)[1..] == rest;
  }

  lemma {:induction false} PrependedFirst(records: seq<Record>)
    requires records != []
    ensures Prepended(records[0], Ok(records[1..])) == Ok(records)
  {
    assert [records[0]] + records[1..] == records;
  }

  lemma {:induction false} FollowingRecordsAreGrouped(fields: seq<Field>, i: nat, taken: set<Units>, records: seq<Record>)
    requires FollowsFrom(fields, i, taken, records)
    ensures i <= |fields| && RecordsFrom(fields, i, taken) == Ok(records)
    decreases |records|
  {
    if records != [] {
      var r := records[0];
      GroupingStep(fields, i, taken, r);
      FollowingRecordsAreGrouped(fields, i + Width(r), taken + Claimed(r), records[1..]);
      PrependedFirst(records);
    }
  }
}
