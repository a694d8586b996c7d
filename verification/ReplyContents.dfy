/**
 * What an accepted reply holds, read off its fields directly: which fields each value stands for,
 * and every byte of it.
 */
module ReplyContents {
  import opened Text
  import opened Wrappers
  import opened ClassicResult
  import opened ClassicDecoder
  import S = Scalars

  // ---------------------------------------------------------------- what one value stands for

  /** The positions of a tag, in order. */
  function Positions(fields: seq<Field>, tag: int): seq<nat> {
    if fields == [] then []
    else Positions(fields[..|fields| - 1], tag) + if fields[|fields| - 1].tag == tag then [|fields| - 1] else []
  }

  /** A name on the wire is padded with spaces. */
  ghost predicate Names(raw: Bytes, name: Units) {
    && name != [] && name[|name| - 1] != SPACE && (forall i :: 0 <= i < |name| ==> 0x20 <= name[i] != 0x7F) && IsScalarText(name)
    && exists n: nat :: raw == Utf16Bytes(name + S.Repeat(SPACE, n))
  }

  /** Four bytes, the highest first. */
  function Quad(b: Bytes, at: nat): nat
    requires at + 4 <= |b|
  {
    0x100_0000 * Number(b[at]) + 0x1_0000 * Number(b[at + 1]) + 0x100 * Number(b[at + 2]) + Number(b[at + 3])
  }

  /** A plain row as it is; a compressed one with its last byte repeated up to the width. */
  predicate IsRowOf(f: Field, width: nat, row: Bytes) {
    && f.value != [] && |f.value| <= width
    && if f.tag == 0x0303 then row == f.value
       else
         && f.tag == 0x0304 && |row| == width
         && forall j :: 0 <= j < width ==> row[j] == f.value[if j < |f.value| then j else |f.value| - 1]
  }

  ghost predicate StandsForScalar(fields: seq<Field>, i: nat, s: ScalarValue) {
    i + 1 < |fields| && Names(fields[i].value, s.name) && fields[i + 1] == Field(0x0203, s.value)
  }

  ghost predicate StandsForTable(fields: seq<Field>, i: nat, t: TableValue) {
    && i + 2 + |t.rows| <= |fields| && Names(fields[i].value, t.name)
    && fields[i + 1].tag == 0x0302 && |fields[i + 1].value| == 8
    && t.declaredWidth == Quad(fields[i + 1].value, 0) && |t.rows| == Quad(fields[i + 1].value, 4)
    && AreRows(fields[i + 2..i + 2 + |t.rows|], t.declaredWidth, t.rows)
    && t.rowWidth == (if t.rows == [] then t.declaredWidth else |t.rows[0]|)
    && LabelFits(fields[i + 2..i + 2 + |t.rows|], t.encoding)
  }

  predicate AreRows(fields: seq<Field>, width: nat, rows: seq<Bytes>) {
    |fields| == |rows| && forall k :: 0 <= k < |rows| ==> IsRowOf(fields[k], width, rows[k])
  }

  /** The label tells which kinds of row there are. */
  predicate LabelFits(rows: seq<Field>, encoding: RowEncoding) {
    && (encoding == Empty <==> rows == [])
    && (encoding == Flat <==> rows != [] && forall k :: 0 <= k < |rows| ==> rows[k].tag == 0x0303)
    && (encoding == Structured <==> rows != [] && forall k :: 0 <= k < |rows| ==> rows[k].tag == 0x0304)
  }

  /** Where the bytes of a chunk begin in the joined value. */
  function Offset(fields: seq<Field>, i: nat, chunk: nat): nat
    requires i + chunk <= |fields|
  {
    if chunk == 0 then 0 else Offset(fields, i, chunk - 1) + |fields[i + chunk - 1].value|
  }

  /** The value is its chunks one after another, byte by byte, between two empty boundaries. */
  ghost predicate StandsForXrfc(fields: seq<Field>, i: nat, x: XrfcValue) {
    && i + 1 + x.chunkCount < |fields| && x.chunkCount > 0
    && fields[i].value == [] && fields[i + 1 + x.chunkCount] == Field(0x3c02, [])
    && |x.value| == Offset(fields, i + 1, x.chunkCount)
    && AreChunks(fields, i + 1, x.chunkCount, x.value)
  }

  predicate AreChunks(fields: seq<Field>, start: nat, count: nat, value: Bytes) {
    forall k :: 0 <= k < count ==> IsChunk(fields, start, k, value)
  }

  predicate IsChunk(fields: seq<Field>, i: nat, k: nat, value: Bytes)
  {
    && i + k < |fields|
    && var chunk := fields[i + k];
    && chunk.tag == 0x3c05 && chunk.value != []
    && Offset(fields, i, k) + |chunk.value| <= |value|
    && forall j :: 0 <= j < |chunk.value| ==> value[Offset(fields, i, k) + j] == chunk.value[j]
  }

  /** Every value of the reply stands for the fields at its position, and every such position has one. */
  ghost predicate Mirrors(fields: seq<Field>, reply: Reply) {
    var requested, scalars, tables, xrfc := Positions(fields, 0x0205), Positions(fields, 0x0201), Positions(fields, 0x0301), Positions(fields, 0x3c02);
    && |requested| == |reply.requested| && |scalars| == |reply.scalars| && |tables| == |reply.tables| && |xrfc| == 2 * |reply.xrfc|
    && (forall m :: 0 <= m < |requested| ==> requested[m] < |fields| && Names(fields[requested[m]].value, reply.requested[m]))
    && (forall m :: 0 <= m < |scalars| ==> StandsForScalar(fields, scalars[m], reply.scalars[m]))
    && (forall m :: 0 <= m < |tables| ==> StandsForTable(fields, tables[m], reply.tables[m]))
    && (forall m :: 0 <= m < |reply.xrfc| ==> StandsForXrfc(fields, xrfc[2 * m], reply.xrfc[m]))
  }

  // ---------------------------------------------------------------- names, headers and rows

  lemma {:induction false} NameIsNamed(raw: Bytes)
    requires NameOf(raw).Ok?
    ensures Names(raw, NameOf(raw).value)
  {
    var units, name := Utf16Units(raw), NameOf(raw).value;
    Utf16RoundTripBytes(raw);
    S.StrippedPrefix(units);
    var n := |units| - |name|;
    assert units == name + S.Repeat(SPACE, n);
    assert forall i :: 0 <= i < |name| ==> name[i] in name;
    S.PrefixBeforePlainIsText(units, |name|);
  }

  lemma {:induction false} HeaderRead(raw: Bytes)
    requires HeaderOf(raw).Ok?
    ensures |raw| == 8 && HeaderOf(raw).value == Header(Quad(raw, 0), Quad(raw, 4))
  {}

  lemma {:induction false} RowRead(h: Header, f: Field)
    requires IsRow(f) && RowFault(h, f) == None
    ensures IsRowOf(f, h.width, RowBytes(h, f))
  {}

  lemma {:induction false} FaultlessRow(h: Header, rows: seq<Field>, k: nat)
    requires Faultless(h, rows) && k < |rows|
    ensures IsRow(rows[k]) && RowFault(h, rows[k]) == None
  {
    if k > 0 {
      FaultlessRow(h, rows[1..], k - 1);
    }
  }

  // ---------------------------------------------------------------- more fields behind

  lemma {:induction false} OneFieldMore(fields: seq<Field>, f: Field, tag: int)
    ensures Positions(fields + [f], tag) == Positions(fields, tag) + if f.tag == tag then [|fields|] else []
  {
    assert (fields + [f])[..|fields|] == fields;
  }

  lemma {:induction false} OtherFieldsMore(fields: seq<Field>, more: seq<Field>, tag: int)
    requires forall k :: 0 <= k < |more| ==> more[k].tag != tag
    ensures Positions(fields + more, tag) == Positions(fields, tag)
    decreases |more|
  {
    if more == [] {
      assert fields + more == fields;
    } else {
      var n := |more| - 1;
      OtherFieldsMore(fields, more[..n], tag);
      OneFieldMore(fields + more[..n], more[n], tag);
      assert fields + more == fields + more[..n] + [more[n]];
    }
  }

  lemma {:induction false} OffsetStays(fields: seq<Field>, more: seq<Field>, i: nat, chunk: nat)
    requires i + chunk <= |fields|
    ensures Offset(fields + more, i, chunk) == Offset(fields, i, chunk)
    decreases chunk
  {
    if chunk > 0 {
      OffsetStays(fields, more, i, chunk - 1);
    }
  }

  lemma {:induction false} TableStays(fields: seq<Field>, more: seq<Field>, i: nat, t: TableValue)
    requires StandsForTable(fields, i, t)
    ensures StandsForTable(fields + more, i, t)
  {
    assert (fields + more)[i + 2..i + 2 + |t.rows|] == fields[i + 2..i + 2 + |t.rows|];
  }

  lemma {:induction false} XrfcStays(fields: seq<Field>, more: seq<Field>, i: nat, x: XrfcValue)
    requires StandsForXrfc(fields, i, x)
    ensures StandsForXrfc(fields + more, i, x)
  {
    OffsetStays(fields, more, i + 1, x.chunkCount);
    var start := i + 1;
    forall k | 0 <= k < x.chunkCount ensures IsChunk(fields + more, start, k, x.value) {
      assert IsChunk(fields, start, k, x.value);
      OffsetStays(fields, more, start, k);
    }
  }

  /** What a reply says of some fields it still says when the same positions are all there is of a tag. */
  lemma {:induction false} MirrorsStays(fields: seq<Field>, more: seq<Field>, reply: Reply)
    requires Mirrors(fields, reply)
    requires forall tag :: tag in {0x0205, 0x0201, 0x0301, 0x3c02} ==> Positions(fields + more, tag) == Positions(fields, tag)
    ensures Mirrors(fields + more, reply)
  {
    var tables, xrfc := Positions(fields, 0x0301), Positions(fields, 0x3c02);
    forall m | 0 <= m < |tables| ensures StandsForTable(fields + more, tables[m], reply.tables[m]) {
      TableStays(fields, more, tables[m], reply.tables[m]);
    }
    forall m | 0 <= m < |reply.xrfc| ensures StandsForXrfc(fields + more, xrfc[2 * m], reply.xrfc[m]) {
      XrfcStays(fields, more, xrfc[2 * m], reply.xrfc[m]);
    }
  }

  // ---------------------------------------------------------------- one record more

  lemma {:induction false} IgnoredMore(fields: seq<Field>, reply: Reply, f: Field)
    requires Mirrors(fields, reply) && IsIgnored(f.tag)
    ensures Mirrors(fields + [f], reply)
  {
    forall tag | tag in {0x0205, 0x0201, 0x0301, 0x3c02} ensures Positions(fields + [f], tag) == Positions(fields, tag) {
      OneFieldMore(fields, f, tag);
    }
    MirrorsStays(fields, [f], reply);
  }

  lemma {:induction false} RequestedMore(fields: seq<Field>, reply: Reply, raw: Bytes)
    requires Mirrors(fields, reply) && NameOf(raw).Ok?
    ensures Mirrors(fields + [Field(REQUESTED_OUTPUT, raw)], Added(reply, Requested(raw)))
  {
    var f := Field(REQUESTED_OUTPUT, raw);
    NameIsNamed(raw);
    forall tag | tag in {0x0205, 0x0201, 0x0301, 0x3c02}
      ensures Positions(fields + [f], tag) == Positions(fields, tag) + if tag == REQUESTED_OUTPUT then [|fields|] else []
    {
      OneFieldMore(fields, f, tag);
    }
    OthersStay(fields, [f], reply);
  }

  /** The values there are still stand for the same fields. */
  lemma {:induction false} OthersStay(fields: seq<Field>, more: seq<Field>, reply: Reply)
    requires Mirrors(fields, reply)
    ensures
      var requested, scalars, tables, xrfc := Positions(fields, 0x0205), Positions(fields, 0x0201), Positions(fields, 0x0301), Positions(fields, 0x3c02);
      && (forall m :: 0 <= m < |requested| ==> requested[m] < |fields + more| && Names((fields + more)[requested[m]].value, reply.requested[m]))
      && (forall m :: 0 <= m < |scalars| ==> StandsForScalar(fields + more, scalars[m], reply.scalars[m]))
      && (forall m :: 0 <= m < |tables| ==> StandsForTable(fields + more, tables[m], reply.tables[m]))
      && (forall m :: 0 <= m < |reply.xrfc| ==> StandsForXrfc(fields + more, xrfc[2 * m], reply.xrfc[m]))
  {
    var tables, xrfc := Positions(fields, 0x0301), Positions(fields, 0x3c02);
    forall m | 0 <= m < |tables| ensures StandsForTable(fields + more, tables[m], reply.tables[m]) {
      TableStays(fields, more, tables[m], reply.tables[m]);
    }
    forall m | 0 <= m < |reply.xrfc| ensures StandsForXrfc(fields + more, xrfc[2 * m], reply.xrfc[m]) {
      XrfcStays(fields, more, xrfc[2 * m], reply.xrfc[m]);
    }
  }

  lemma {:induction false} ScalarMore(fields: seq<Field>, reply: Reply, raw: Bytes, value: Bytes)
    requires Mirrors(fields, reply) && NameOf(raw).Ok?
    ensures Mirrors(fields + Spelled(Scalar(raw, value)), Added(reply, Scalar(raw, value)))
  {
    var first, second := Field(PARAMETER_NAME, raw), Field(PARAMETER_VALUE, value);
    var more := Spelled(Scalar(raw, value));
    NameIsNamed(raw);
    assert fields + more == fields + [first] + [second];
    forall tag | tag in {0x0205, 0x0201, 0x0301, 0x3c02}
      ensures Positions(fields + more, tag) == Positions(fields, tag) + if tag == PARAMETER_NAME then [|fields|] else []
    {
      OneFieldMore(fields, first, tag);
      OneFieldMore(fields + [first], second, tag);
    }
    OthersStay(fields, more, reply);
  }

  lemma {:induction false} TablePositions(fields: seq<Field>, first: Field, second: Field, rows: seq<Field>, tag: int)
    requires (forall k :: 0 <= k < |rows| ==> rows[k].tag != tag) && second.tag != tag
    ensures Positions(fields + [first] + [second] + rows, tag) == Positions(fields, tag) + if first.tag == tag then [|fields|] else []
  {
    OneFieldMore(fields, first, tag);
    OneFieldMore(fields + [first], second, tag);
    OtherFieldsMore(fields + [first] + [second], rows, tag);
  }

  lemma {:induction false} TableMore(fields: seq<Field>, reply: Reply, raw: Bytes, header: Bytes, rows: seq<Field>)
    requires Mirrors(fields, reply) && RecordSound(Table(raw, header, rows))
    ensures Mirrors(fields + Spelled(Table(raw, header, rows)), Added(reply, Table(raw, header, rows)))
  {
    var more := [Field(TABLE_NAME, raw)] + [Field(TABLE_HEADER, header)] + rows;
    TableSpelled(fields, raw, header, rows);
    NewTable(fields, raw, header, rows);
    TableIsTheOnlyName(fields, raw, header, rows);
    MirrorsTable(fields, more, fields + more, reply, TableOf(NameOf(raw).value, HeaderOf(header).value, rows));
  }

  lemma {:induction false} TableIsTheOnlyName(fields: seq<Field>, raw: Bytes, header: Bytes, rows: seq<Field>)
    requires RecordSound(Table(raw, header, rows))
    ensures
      var all := fields + ([Field(TABLE_NAME, raw)] + [Field(TABLE_HEADER, header)] + rows);
      && Positions(all, 0x0205) == Positions(fields, 0x0205) && Positions(all, 0x0201) == Positions(fields, 0x0201)
      && Positions(all, 0x0301) == Positions(fields, 0x0301) + [|fields|] && Positions(all, 0x3c02) == Positions(fields, 0x3c02)
  {
    var first, second := Field(TABLE_NAME, raw), Field(TABLE_HEADER, header);
    RowsHaveRowTags(HeaderOf(header).value, rows);
    assert fields + ([first] + [second] + rows) == fields + [first] + [second] + rows;
    TablePositions(fields, first, second, rows, 0x0205);
    TablePositions(fields, first, second, rows, 0x0201);
    TablePositions(fields, first, second, rows, 0x0301);
    TablePositions(fields, first, second, rows, 0x3c02);
  }

  lemma {:induction false} MirrorsTable(fields: seq<Field>, more: seq<Field>, all: seq<Field>, reply: Reply, t: TableValue)
    requires Mirrors(fields, reply) && all == fields + more && StandsForTable(all, |fields|, t)
    requires Positions(all, 0x0205) == Positions(fields, 0x0205) && Positions(all, 0x0201) == Positions(fields, 0x0201)
    requires Positions(all, 0x0301) == Positions(fields, 0x0301) + [|fields|] && Positions(all, 0x3c02) == Positions(fields, 0x3c02)
    ensures Mirrors(all, reply.(tables := reply.tables + [t]))
  {
    OthersStay(fields, more, reply);
  }

  lemma {:induction false} RowsHaveRowTags(h: Header, rows: seq<Field>)
    requires Faultless(h, rows)
    ensures forall k :: 0 <= k < |rows| ==> IsRow(rows[k])
  {
    forall k | 0 <= k < |rows| ensures IsRow(rows[k]) {
      FaultlessRow(h, rows, k);
    }
  }

  lemma {:induction false} NewTable(fields: seq<Field>, raw: Bytes, header: Bytes, rows: seq<Field>)
    requires RecordSound(Table(raw, header, rows))
    ensures StandsForTable(fields + ([Field(TABLE_NAME, raw)] + [Field(TABLE_HEADER, header)] + rows), |fields|,
                           TableOf(NameOf(raw).value, HeaderOf(header).value, rows))
  {
    var h := HeaderOf(header).value;
    var more := [Field(TABLE_NAME, raw)] + [Field(TABLE_HEADER, header)] + rows;
    var all := fields + more;
    assert all[|fields|] == Field(TABLE_NAME, raw) && all[|fields| + 1] == Field(TABLE_HEADER, header);
    assert all[|fields| + 2..|fields| + 2 + |rows|] == rows;
    assert Names(all[|fields|].value, NameOf(raw).value) by {
      NameIsNamed(raw);
    }
    HeaderRead(header);
    assert AreRows(rows, h.width, DecodedRows(h, rows)) by {
      RowsAreRead(h, rows);
    }
    assert LabelFits(rows, EncodingOf(rows)) by {
      RowsHaveRowTags(h, rows);
      EncodingFits(rows);
    }
    DecodedTable(all, |fields|, NameOf(raw).value, h, rows);
  }

  lemma {:induction false} RowsAreRead(h: Header, rows: seq<Field>)
    requires Faultless(h, rows)
    ensures AreRows(rows, h.width, DecodedRows(h, rows))
  {
    forall k | 0 <= k < |rows| ensures IsRowOf(rows[k], h.width, DecodedRows(h, rows)[k]) {
      FaultlessRow(h, rows, k);
      RowRead(h, rows[k]);
    }
  }

  lemma {:induction false} DecodedTable(all: seq<Field>, i: nat, name: Units, h: Header, rows: seq<Field>)
    requires i + 2 + |rows| <= |all| && all[i + 2..i + 2 + |rows|] == rows
    requires Names(all[i].value, name) && all[i + 1].tag == 0x0302 && |all[i + 1].value| == 8
    requires h == Header(Quad(all[i + 1].value, 0), Quad(all[i + 1].value, 4)) && |rows| == h.count
    requires AreRows(rows, h.width, DecodedRows(h, rows)) && LabelFits(rows, EncodingOf(rows))
    ensures StandsForTable(all, i, TableOf(name, h, rows))
  {}

  lemma {:induction false} TableSpelled(fields: seq<Field>, raw: Bytes, header: Bytes, rows: seq<Field>)
    ensures fields + Spelled(Table(raw, header, rows)) == fields + ([Field(TABLE_NAME, raw)] + [Field(TABLE_HEADER, header)] + rows)
  {}

  lemma {:induction false} EncodingFits(rows: seq<Field>)
    requires forall k :: 0 <= k < |rows| ==> IsRow(rows[k])
    ensures LabelFits(rows, EncodingOf(rows))
  {
    HasTagMeansOccurs(rows, TABLE_CONTENT);
    HasTagMeansOccurs(rows, TABLE_COMPR);
    assert forall k :: 0 <= k < |rows| ==> rows[k] in rows;
  }

  lemma {:induction false} XrfcSpelled(fields: seq<Field>, chunks: seq<Bytes>)
    ensures
      var boundary := [Field(XRFC_PARAMETER, [])];
      fields + Spelled(Xrfc(chunks)) == fields + (boundary + ChunkFields(chunks) + boundary)
  {}

  lemma {:induction false} BoundedPositions(fields: seq<Field>, boundary: Field, data: seq<Field>, tag: int)
    requires forall k :: 0 <= k < |data| ==> data[k].tag != tag
    ensures Positions(fields + [boundary] + data + [boundary], tag) ==
            Positions(fields, tag) + if tag == boundary.tag then [|fields|] + [|fields| + 1 + |data|] else []
  {
    OneFieldMore(fields, boundary, tag);
    OtherFieldsMore(fields + [boundary], data, tag);
    OneFieldMore(fields + [boundary] + data, boundary, tag);
  }

  lemma {:induction false} XrfcMore(fields: seq<Field>, reply: Reply, chunks: seq<Bytes>)
    requires Mirrors(fields, reply) && RecordSound(Xrfc(chunks))
    ensures Mirrors(fields + Spelled(Xrfc(chunks)), Added(reply, Xrfc(chunks)))
  {
    var boundary := [Field(XRFC_PARAMETER, [])];
    var more := boundary + ChunkFields(chunks) + boundary;
    var x := XrfcValue(Joined(chunks), |chunks|);
    NewXrfc(fields, chunks);
    BoundariesAreTheOnlyOnes(fields, chunks);
    MirrorsXrfc(fields, more, fields + more, reply, x, |fields| + 1 + |chunks|);
    XrfcSpelled(fields, chunks);
    assert Added(reply, Xrfc(chunks)) == reply.(xrfc := reply.xrfc + [x]);
  }

  lemma {:induction false} BoundariesAreTheOnlyOnes(fields: seq<Field>, chunks: seq<Bytes>)
    ensures
      var boundary := [Field(XRFC_PARAMETER, [])];
      var all := fields + (boundary + ChunkFields(chunks) + boundary);
      && Positions(all, 0x0205) == Positions(fields, 0x0205) && Positions(all, 0x0201) == Positions(fields, 0x0201)
      && Positions(all, 0x0301) == Positions(fields, 0x0301)
      && Positions(all, 0x3c02) == Positions(fields, 0x3c02) + [|fields|] + [|fields| + 1 + |chunks|]
  {
    var boundary, data := Field(XRFC_PARAMETER, []), ChunkFields(chunks);
    ChunkFieldsAre(chunks);
    assert fields + ([boundary] + data + [boundary]) == fields + [boundary] + data + [boundary];
    BoundedPositions(fields, boundary, data, 0x0205);
    BoundedPositions(fields, boundary, data, 0x0201);
    BoundedPositions(fields, boundary, data, 0x0301);
    BoundedPositions(fields, boundary, data, 0x3c02);
  }

  lemma {:induction false} MirrorsXrfc(fields: seq<Field>, more: seq<Field>, all: seq<Field>, reply: Reply, x: XrfcValue, closing: nat)
    requires Mirrors(fields, reply) && all == fields + more && StandsForXrfc(all, |fields|, x)
    requires Positions(all, 0x0205) == Positions(fields, 0x0205) && Positions(all, 0x0201) == Positions(fields, 0x0201)
    requires Positions(all, 0x0301) == Positions(fields, 0x0301)
    requires Positions(all, 0x3c02) == Positions(fields, 0x3c02) + [|fields|] + [closing]
    ensures Mirrors(all, reply.(xrfc := reply.xrfc + [x]))
  {
    OthersStay(fields, more, reply);
  }

  lemma {:induction false} ChunkFieldsAre(chunks: seq<Bytes>)
    ensures |ChunkFields(chunks)| == |chunks| && forall k :: 0 <= k < |chunks| ==> ChunkFields(chunks)[k] == Field(XRFC_DATA, chunks[k])
  {
    if chunks != [] {
      ChunkFieldsAre(chunks[1..]);
    }
  }

  lemma {:induction false} NewXrfc(fields: seq<Field>, chunks: seq<Bytes>)
    requires RecordSound(Xrfc(chunks))
    ensures StandsForXrfc(fields + ([Field(XRFC_PARAMETER, [])] + ChunkFields(chunks) + [Field(XRFC_PARAMETER, [])]), |fields|,
                          XrfcValue(Joined(chunks), |chunks|))
  {
    var all := fields + ([Field(XRFC_PARAMETER, [])] + ChunkFields(chunks) + [Field(XRFC_PARAMETER, [])]);
    var start := |fields| + 1;
    ChunkFieldsAre(chunks);
    assert forall k :: 0 <= k < |chunks| ==> all[start + k] == Field(XRFC_DATA, chunks[k]);
    forall k | 0 <= k < |chunks| ensures IsChunk(all, start, k, Joined(chunks)) {
      OffsetIsTotal(all, start, chunks, k);
      ChunkInJoined(chunks, k);
    }
    OffsetIsTotal(all, start, chunks, |chunks|);
    assert chunks[..|chunks|] == chunks;
  }

  lemma {:induction false} OffsetIsTotal(fields: seq<Field>, start: nat, chunks: seq<Bytes>, k: nat)
    requires k <= |chunks| && start + |chunks| <= |fields|
    requires forall i :: 0 <= i < |chunks| ==> fields[start + i] == Field(XRFC_DATA, chunks[i])
    ensures Offset(fields, start, k) == TotalBytes(chunks[..k])
    decreases k
  {
    if k > 0 {
      OffsetIsTotal(fields, start, chunks, k - 1);
      TotalBytesAppend(chunks[..k - 1], chunks[k - 1]);
      assert chunks[..k] == chunks[..k - 1] + [chunks[k - 1]];
    }
  }

  lemma {:induction false} ChunkInJoined(chunks: seq<Bytes>, k: nat)
    requires k < |chunks| && NoneEmpty(chunks)
    ensures chunks[k] != [] && TotalBytes(chunks[..k]) + |chunks[k]| <= |Joined(chunks)|
    ensures forall j :: 0 <= j < |chunks[k]| ==> Joined(chunks)[TotalBytes(chunks[..k]) + j] == chunks[k][j]
    decreases k
  {
    if k == 0 {
      assert chunks[..0] == [];
    } else {
      ChunkInJoined(chunks[1..], k - 1);
      assert chunks[..k][1..] == chunks[1..][..k - 1];
      assert Joined(chunks) == chunks[0] + Joined(chunks[1..]);
    }
  }

  // ---------------------------------------------------------------- the whole reply

  lemma {:induction false} RecordMirrored(fields: seq<Field>, reply: Reply, r: Record)
    requires Mirrors(fields, reply) && RecordSound(r)
    ensures Mirrors(fields + Spelled(r), Added(reply, r))
  {
    match r
    case Ignored(f) => IgnoredMore(fields, reply, f);
    case Requested(raw) => RequestedMore(fields, reply, raw);
    case Scalar(raw, value) => ScalarMore(fields, reply, raw, value);
    case Table(raw, header, rows) => TableMore(fields, reply, raw, header, rows);
    case Xrfc(chunks) => XrfcMore(fields, reply, chunks);
  }

  lemma {:induction false} RecordsMirrored(fields: seq<Field>, reply: Reply, records: seq<Record>)
    requires Mirrors(fields, reply) && forall k :: 0 <= k < |records| ==> RecordSound(records[k])
    ensures Mirrors(fields + SpelledAll(records), Collected(reply, records))
    decreases |records|
  {
    if records == [] {
      assert fields + SpelledAll(records) == fields;
    } else {
      SpelledOneMore(fields, records);
      assert Mirrors(fields + Spelled(records[0]), Added(reply, records[0])) by {
        assert RecordSound(records[0]);
        RecordMirrored(fields, reply, records[0]);
      }
      RecordsMirrored(fields + Spelled(records[0]), Added(reply, records[0]), records[1..]);
    }
  }

  lemma {:induction false} SpelledOneMore(fields: seq<Field>, records: seq<Record>)
    requires records != []
    ensures fields + SpelledAll(records) == (fields + Spelled(records[0])) + SpelledAll(records[1..])
  {}

  /**
   * An accepted reply holds, in order, one value for each name in its fields, with the bytes of the
   * fields behind it: rows of the width and number the header gives, compressed ones filled with
   * their last byte, and xRFC values joined from their chunks.
   */
  lemma {:induction false} ReplyMirrorsFields(fields: seq<Field>)
    requires Decoded(fields).Ok?
    ensures Mirrors(fields, Decoded(fields).value)
  {
    AcceptedIffPartition(fields);
    var records :| IsPartition(fields, records);
    ReplyCollectsPartition(fields, records);
    RecordsMirrored([], EMPTY_REPLY, records);
    assert [] + SpelledAll(records) == fields;
  }

  // ---------------------------------------------------------------- what a sound record is

  lemma {:induction false} NamedIsName(raw: Bytes, name: Units)
    requires Names(raw, name)
    ensures NameOf(raw) == Ok(name)
  {
    var n: nat :| raw == Utf16Bytes(name + S.Repeat(SPACE, n));
    Utf16RoundTrip(name + S.Repeat(SPACE, n));
    S.PlainIsText(S.Repeat(SPACE, n));
    S.TextConcatenates(name, S.Repeat(SPACE, n));
    S.StripUndoesPadding(name, n);
  }

  /**
   * The grammar of a record, without the checks in their order: names in their padding, headers of
   * eight bytes, as many rows as declared, none empty or too wide, and chunks that are not empty.
   */
  lemma {:induction false} RecordSoundIff(r: Record)
    ensures RecordSound(r) <==>
              match r
              case Ignored(f) => f.tag in {0x0503, 0x0514, 0x0420, 0x0512, 0x0130, 0x0667, 0xffff}
              case Requested(raw) => exists name :: Names(raw, name)
              case Scalar(raw, _) => exists name :: Names(raw, name)
              case Table(raw, header, rows) =>
                (exists name :: Names(raw, name)) && |header| == 8 && |rows| == Quad(header, 4) && AllRowsFit(rows, Quad(header, 0))
              case Xrfc(chunks) => chunks != [] && [] !in chunks && TotalBytes(chunks) <= 0x1000_0000
  {
    if !r.Ignored? && !r.Xrfc? {
      NamedIff(r.raw);
    }
    if r.Table? && |r.header| == 8 {
      HeaderRead(r.header);
      FaultlessIff(HeaderOf(r.header).value, r.rows);
    }
    if r.Xrfc? {
      NoneEmptyIff(r.chunks);
    }
  }

  lemma {:induction false} NamedIff(raw: Bytes)
    ensures NameOf(raw).Ok? <==> exists name :: Names(raw, name)
  {
    if NameOf(raw).Ok? {
      NameIsNamed(raw);
    }
    if name :| Names(raw, name) {
      NamedIsName(raw, name);
    }
  }

  predicate AllRowsFit(rows: seq<Field>, width: nat) {
    forall k :: 0 <= k < |rows| ==>
      && (rows[k].tag == 0x0303 || rows[k].tag == 0x0304) && 0 < |rows[k].value| <= width
      && (rows[k].tag == 0x0304 && |rows[k].value| < width ==> width <= 0x1000_0000)
  }

  lemma {:induction false} FaultlessIff(h: Header, rows: seq<Field>)
    ensures Faultless(h, rows) <==> AllRowsFit(rows, h.width)
  {
    if rows != [] {
      FaultlessIff(h, rows[1..]);
      assert forall k :: 1 <= k < |rows| ==> rows[k] == rows[1..][k - 1];
      assert AllRowsFit(rows, h.width) ==> AllRowsFit(rows[1..], h.width);
      if AllRowsFit([rows[0]], h.width) && AllRowsFit(rows[1..], h.width) {
        assert [rows[0]][0] == rows[0];
      }
    }
  }

  lemma {:induction false} NoneEmptyIff(chunks: seq<Bytes>)
    ensures NoneEmpty(chunks) <==> [] !in chunks
  {
    if chunks != [] {
      NoneEmptyIff(chunks[1..]);
    }
  }

  // ---------------------------------------------------------------- exactly when a reply is accepted

  /** Sound records whose rows are within the limit pass the scan. */
  lemma {:induction false} RecordsPassScan(fields: seq<Field>, i: nat, taken: set<Units>, total: nat, records: seq<Record>)
    requires FollowsFrom(fields, i, taken, records) && total + DecodedBytes(records) <= MAX_CHAIN_LENGTH
    ensures TableBytesFrom(fields, i, total).Ok?
    decreases |records|
  {
    if records != [] {
      var r := records[0];
      RecordPassesScan(fields, i, total, r);
      RecordsPassScan(fields, i + Width(r), taken + Claimed(r), total + RecordBytes(r), records[1..]);
    }
  }

  lemma {:induction false} RecordPassesScan(fields: seq<Field>, i: nat, total: nat, r: Record)
    requires SpelledAt(fields, i, r) && RecordSound(r) && total + RecordBytes(r) <= MAX_CHAIN_LENGTH
    ensures TableBytesFrom(fields, i, total) == TableBytesFrom(fields, i + Width(r), total + RecordBytes(r))
  {
    if r.Table? {
      TableIsMeasured(fields, i, r);
    } else {
      OtherRecordIsSkipped(fields, i, r, total);
    }
  }

  lemma {:induction false} ScannedWithinLimit(fields: seq<Field>, i: nat, total: nat)
    requires TableBytesFrom(fields, i, total).Ok? && total <= MAX_CHAIN_LENGTH
    ensures TableBytesFrom(fields, i, total).value <= MAX_CHAIN_LENGTH
    decreases |fields| - i
  {
    if i < |fields| {
      if fields[i].tag != TABLE_NAME || TagAt(fields, i + 1) != TABLE_HEADER {
        ScannedWithinLimit(fields, i + 1, total);
      } else {
        var t := ScanTable(fields, i).value;
        ScannedWithinLimit(fields, i + 2 + t.rows, total + t.size);
      }
    }
  }

  /**
   * A reply is accepted exactly if its fields are sound records with distinct names, and their
   * number, their bytes and the bytes of their decoded rows are within the limits.
   */
  lemma {:induction false} AcceptedIffFits(fields: seq<Field>)
    ensures Decoded(fields).Ok? <==>
              && |fields| <= 100_000 && ValueBytes(fields) <= 0x1000_0000
              && exists records :: IsPartition(fields, records) && DecodedBytes(records) <= 0x1000_0000
  {
    AcceptedIffPartition(fields);
    if Decoded(fields).Ok? {
      var records :| IsPartition(fields, records);
      ReplyCollectsPartition(fields, records);
      ScannedWithinLimit(fields, 0, 0);
    }
    if |fields| <= 100_000 && ValueBytes(fields) <= 0x1000_0000 {
      if records :| IsPartition(fields, records) && DecodedBytes(records) <= 0x1000_0000 {
        HasToTheEnd(fields, 0, SpelledAll(records));
        assert fields[0..] == fields;
        FollowingIsSpelling(fields, 0, {}, records);
        RecordsPassScan(fields, 0, {}, 0, records);
      }
    }
  }
}
