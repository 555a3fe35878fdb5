/** BulkTableFileWriter: writes a bulk table file.  The file is a chunked file of
 *  type BTBL; each table contributes a TABL chunk (its descriptor), a COLS chunk
 *  (its columns) and a ROWD chunk (the table's id, then the row data, which the
 *  caller writes into the open chunk). */
module BulkTableFileWriters {
  import opened Wrappers
  import opened Bytes
  import opened Streams
  import opened Serialiser
  import opened ChunkedFileHeaders
  import opened ChunkedFileWriters
  import opened TypeIds
  import opened ColumnDescriptors
  import opened TableFileFormat

  /** Where the data of a chunk begun at `pos` starts: after the padding to 8 and
   *  the 16-byte header. */
  function ChunkDataStart(pos: nat): (r: nat)
    ensures r % 8 == 0 && pos + 16 <= r < pos + 24
  {
    pos + |ChunkPadding(pos)| + ChunkHeaderSizeBytes
  }

  /** The 8-byte header at the start of a bulk table file. */
  function FileHeaderBytes(): (r: seq<byte>)
    ensures |r| == 8
  {
    EmitHeader(0, true, FileHeader).value
  }

  /** `after` and `pos` are the stream after a whole chunk of type `typeId` with
   *  data `body` was written at `at` over `before`, and closed. */
  predicate ChunkWritten(before: seq<byte>, at: nat, typeId: uint32, body: seq<byte>, after: seq<byte>, pos: nat)
    requires |body| < 0x8000_0000_0000_0000
  {
    after == Splice(before, at, ChunkImage(at, typeId, body)) && pos == at + |ChunkImage(at, typeId, body)|
  }

  /** Beginning a chunk at `at`, writing `body` from its data start and closing it
   *  leaves the whole chunk written. */
  lemma ChunkCompleted(before: seq<byte>, at: nat, typeId: uint32, body: seq<byte>, ds: nat, mark: nat,
                       d1: seq<byte>, d2: seq<byte>, pos: nat, d3: seq<byte>)
    requires |body| < 0x1_0000_0000_0000
    requires d1 == Splice(before, at, EmitChunkStart(at, typeId)) && ds == at + |EmitChunkStart(at, typeId)|
    requires mark + 8 == ds && d2 == Splice(d1, ds, body) && pos == ds + |body|
    requires d3 == Splice(d2, mark, Int64Bytes(pos - ds))
    ensures ChunkWritten(before, at, typeId, body, d3, pos)
  {
    ChunkClosed(before, at, typeId, body, ds, mark);
  }

  /** BeginChunk at `pos` leaves the data start where ChunkDataStart says. */
  lemma DataStartIs(pos: nat, typeId: uint32, ds: nat)
    requires ds == pos + |EmitChunkStart(pos, typeId)|
    ensures ds == ChunkDataStart(pos)
  {
  }

  /** The file AddTable, AddColumns and a row chunk holding `rows` make of an empty
   *  stream: the file header, then each chunk appended where the last one ended. */
  function FileImage(t: TableDescriptor, tc: TableColumns, rows: seq<byte>): (r: seq<byte>)
    requires EncodableTable(t) && EncodableColumns(tc) && |rows| < 0x1_0000_0000_0000
  {
    var head := FileHeaderBytes();
    var table := AppendChunk(head, TableNameChunk, TableBody(ChunkDataStart(|head|), t));
    var columns := AppendChunk(table, ColumnsChunk, ColumnsBody(ChunkDataStart(|table|), tc));
    AppendChunk(columns, RowDataChunk, t.id + rows)
  }

  /** `image` followed by a whole chunk of type `typeId` holding `body`, begun
   *  where `image` ends. */
  function AppendChunk(image: seq<byte>, typeId: uint32, body: seq<byte>): (r: seq<byte>)
    requires |body| < 0x8000_0000_0000_0000
  {
    image + ChunkImage(|image|, typeId, body)
  }

  // ---------------------------------------------------------------- body writers

  /** AlignWrite to 4, then WriteString; a null string throws after the padding. */
  method WriteAlignedString(s: Stream, v: Option<string>) returns (r: Result<()>)
    requires s.canWrite && NullOrEncodable(v)
    modifies s
    ensures r.Success? <==> v.Some?
    ensures r.Failure? ==> r.error == ArgumentNull
    ensures s.data == Splice(old(s.data), old(s.pos), AlignedString(old(s.pos), v))
    ensures s.pos == old(s.pos) + |AlignedString(old(s.pos), v)|
  {
    ghost var d0, p0 := s.data, s.pos;
    ghost var pad := Pad4(p0);
    Pad4Emitted(p0);
    var _ := AlignWrite(s, 4);
    ghost var q := s.pos;
    r := WriteString(s, v);
    if v.Some? {
      StringFieldEmitted(q, v.value);
      SpliceAfter(d0, p0, pad, q, StringField(v.value));
    } else {
      assert AlignedString(p0, v) == pad;
    }
  }

  /** The three writes of WriteTableBody make the table's body; when the name is
   *  null the schema is never written. */
  lemma TableBodySplices(d0: seq<byte>, p0: nat, t: TableDescriptor, d1: seq<byte>, p1: nat, name: seq<byte>,
                         d2: seq<byte>, p2: nat, schema: seq<byte>, d3: seq<byte>)
    requires EncodableTable(t) && p1 == p0 + 16 && name == AlignedString(p1, t.name) && p2 == p1 + |name|
    requires schema == AlignedString(p2, t.schema)
    requires d1 == Splice(d0, p0, t.id) && d2 == Splice(d1, p1, name) && d3 == Splice(d2, p2, schema)
    ensures t.name.None? ==> d2 == Splice(d0, p0, TableBody(p0, t)) && p2 == p0 + |TableBody(p0, t)|
    ensures t.name.Some? ==> d3 == Splice(d0, p0, TableBody(p0, t)) && p2 + |schema| == p0 + |TableBody(p0, t)|
  {
    var body := TableBody(p0, t);
    assert |t.id| == 16;
    if t.name.Some? {
      assert body == t.id + name + schema;
      ThreeSplices(d0, p0, t.id, d1, p1, name, d2, p2, schema, d3);
    } else {
      assert body == t.id + name;
      SpliceAfter(d0, p0, t.id, p1, name);
    }
  }

  /** The body of AddTable's chunk: the id, the name, the schema. */
  method WriteTableBody(s: Stream, t: TableDescriptor) returns (r: Result<()>)
    requires s.canWrite && s.pos % 8 == 0 && EncodableTable(t)
    modifies s
    ensures r.Success? <==> t.name.Some? && t.schema.Some?
    ensures r.Failure? ==> r.error == ArgumentNull
    ensures s.data == Splice(old(s.data), old(s.pos), TableBody(old(s.pos), t))
    ensures s.pos == old(s.pos) + |TableBody(old(s.pos), t)|
  {
    ghost var d0, p0 := s.data, s.pos;
    var _ := WriteGuid(s, t.id);
    ghost var d1, p1 := s.data, s.pos;
    ghost var name := AlignedString(p1, t.name);
    r := WriteAlignedString(s, t.name);
    ghost var d2, p2 := s.data, s.pos;
    ghost var schema := AlignedString(p2, t.schema);
    if r.Success? {
      r := WriteAlignedString(s, t.schema);
    }
    TableBodySplices(d0, p0, t, d1, p1, name, d2, p2, schema, Splice(d2, p2, schema));
  }

  /** The four fixed fields of a column record, at a multiple of 4. */
  method WriteColumnFields(s: Stream, c: ColumnDescriptor)
    requires s.canWrite && s.pos % 4 == 0
    modifies s
    ensures s.data == Splice(old(s.data), old(s.pos), ColumnFields(c))
    ensures s.pos == old(s.pos) + 12
  {
    ghost var d0, p0 := s.data, s.pos;
    ghost var index, flags := Int16Bytes(c.originalIndex), Int16Bytes(ColumnFlags.AsShort(c.columnFlags));
    ghost var dataType, length := Int32Bytes(c.storedDataType), Int32Bytes(c.length);
    FieldsAligned(p0);
    var _ := WriteInt16(s, c.originalIndex);
    ghost var p2 := s.pos;
    var _ := WriteInt16(s, ColumnFlags.AsShort(c.columnFlags));
    SpliceAfter(d0, p0, index, p2, flags);
    ghost var p4 := s.pos;
    var _ := WriteInt32(s, c.storedDataType);
    SpliceAfter(d0, p0, index + flags, p4, dataType);
    ghost var p8 := s.pos;
    var _ := WriteInt32(s, c.length);
    SpliceAfter(d0, p0, index + flags + dataType, p8, length);
  }

  /** One iteration of AddColumns' loop: align to 4, the fixed fields, the name. */
  method WriteColumnRecord(s: Stream, c: ColumnDescriptor) returns (r: Result<()>)
    requires s.canWrite && EncodableColumn(c)
    modifies s
    ensures r.Success? <==> c.originalName.Some?
    ensures r.Failure? ==> r.error == ArgumentNull
    ensures s.data == Splice(old(s.data), old(s.pos), ColumnRecord(old(s.pos), c))
    ensures s.pos == old(s.pos) + |ColumnRecord(old(s.pos), c)|
  {
    ghost var d0, p0 := s.data, s.pos;
    ghost var pad, fields := Pad4(p0), ColumnFields(c);
    Pad4Emitted(p0);
    var _ := AlignWrite(s, 4);
    ghost var q := s.pos;
    WriteColumnFields(s, c);
    ghost var n := s.pos;
    SpliceAfter(d0, p0, pad, q, fields);
    FieldsAligned(q);
    r := WriteString(s, c.originalName);
    if r.Success? {
      StringFieldEmitted(n, c.originalName.value);
      SpliceAfter(d0, p0, pad + fields, n, StringField(c.originalName.value));
    } else {
      assert ColumnRecord(p0, c) == pad + fields;
    }
  }

  /** A column list whose first `i` columns are named and that has no further
   *  named column at `i` has `i` as its named prefix. */
  lemma {:induction false} NamedPrefixIs(cs: seq<ColumnDescriptor>, i: nat)
    requires i <= |cs| && AllNamed(cs[..i]) && (i < |cs| ==> cs[i].originalName.None?)
    ensures NamedPrefix(cs) == i
  {
    if i > 0 {
      assert cs[0] == cs[..i][0];
      var tail := cs[1..][..i - 1];
      assert forall j :: 0 <= j < i - 1 ==> tail[j] == cs[j + 1];
      NamedPrefixIs(cs[1..], i - 1);
    }
  }

  /** The loop stops at the first column without a name, after writing it. */
  lemma StoppedAt(cs: seq<ColumnDescriptor>, i: nat)
    requires i < |cs| && AllNamed(cs[..i]) && cs[i].originalName.None?
    ensures cs[..RecordsWritten(cs)] == cs[..i + 1] && !AllNamed(cs)
  {
    NamedPrefixIs(cs, i);
  }

  /** The loop that ran to the end wrote every record. */
  lemma WroteAll(cs: seq<ColumnDescriptor>, i: nat)
    requires i == |cs| && AllNamed(cs[..i])
    ensures cs[..RecordsWritten(cs)] == cs[..i] && AllNamed(cs)
  {
    assert cs[..i] == cs;
    NamedPrefixIs(cs, i);
  }

  /** A named prefix followed by a named column is a longer named prefix. */
  lemma NamedExtended(cs: seq<ColumnDescriptor>, i: nat)
    requires i < |cs| && AllNamed(cs[..i]) && cs[i].originalName.Some?
    ensures AllNamed(cs[..i + 1])
  {
    assert forall j :: 0 <= j < i ==> cs[..i + 1][j] == cs[..i][j];
  }

  /** Three writes, each where the one before ended, are one write of the three
   *  joined. */
  lemma ThreeSplices(d0: seq<byte>, p0: nat, id: seq<byte>, d1: seq<byte>, p1: nat, count: seq<byte>,
                     d2: seq<byte>, p2: nat, size: seq<byte>, d3: seq<byte>)
    requires p1 == p0 + |id| && p2 == p1 + |count|
    requires d1 == Splice(d0, p0, id) && d2 == Splice(d1, p1, count) && d3 == Splice(d2, p2, size)
    ensures d3 == Splice(d0, p0, id + count + size)
  {
    SpliceAfter(d0, p0, id, p1, count);
    SpliceAfter(d0, p0, id + count, p2, size);
  }

  /** One more record written after the first `i` extends the records by one. */
  lemma RecordAppended(d0: seq<byte>, p0: nat, cs: seq<ColumnDescriptor>, i: nat,
                       written: seq<byte>, d: seq<byte>, q: nat, record: seq<byte>, d': seq<byte>)
    requires i < |cs| && forall j :: 0 <= j < |cs| ==> EncodableColumn(cs[j])
    requires written == ColumnRecords(p0, cs[..i]) && q == p0 + |written|
    requires record == ColumnRecord(q, cs[i]) && d == Splice(d0, p0, written) && d' == Splice(d, q, record)
    ensures d' == Splice(d0, p0, ColumnRecords(p0, cs[..i + 1]))
    ensures q + |record| == p0 + |ColumnRecords(p0, cs[..i + 1])|
  {
    assert cs[..i + 1][..i] == cs[..i];
    assert ColumnRecords(p0, cs[..i + 1]) == written + record;
    SpliceAfter(d0, p0, written, q, record);
  }

  /** The loop of AddColumns: one record per column, stopping after the first
   *  column without a name. */
  method WriteColumnRecords(s: Stream, cs: seq<ColumnDescriptor>) returns (r: Result<()>)
    requires s.canWrite && forall j :: 0 <= j < |cs| ==> EncodableColumn(cs[j])
    modifies s
    ensures r.Success? <==> AllNamed(cs)
    ensures r.Failure? ==> r.error == ArgumentNull
    ensures s.data == Splice(old(s.data), old(s.pos), ColumnRecords(old(s.pos), cs[..RecordsWritten(cs)]))
    ensures s.pos == old(s.pos) + |ColumnRecords(old(s.pos), cs[..RecordsWritten(cs)])|
  {
    ghost var d0, p0 := s.data, s.pos;
    assert cs[..0] == [];
    var i := 0;
    while i < |cs|
      invariant i <= |cs| && AllNamed(cs[..i])
      invariant s.data == Splice(d0, p0, ColumnRecords(p0, cs[..i]))
      invariant s.pos == p0 + |ColumnRecords(p0, cs[..i])|
    {
      ghost var written, d, q := ColumnRecords(p0, cs[..i]), s.data, s.pos;
      ghost var record := ColumnRecord(q, cs[i]);
      r := WriteColumnRecord(s, cs[i]);
      RecordAppended(d0, p0, cs, i, written, d, q, record, s.data);
      if r.Failure? {
        StoppedAt(cs, i);
        return;
      }
      NamedExtended(cs, i);
      i := i + 1;
    }
    WroteAll(cs, i);
    return Success(());
  }

  /** The body of AddColumns' chunk: the id, the count, the record size and the
   *  records, stopping after the first column without a name. */
  method WriteColumnsBody(s: Stream, tc: TableColumns) returns (r: Result<()>)
    requires s.canWrite && s.pos % 8 == 0 && EncodableColumns(tc)
    modifies s
    ensures r.Success? <==> AllNamed(tc.columns)
    ensures r.Failure? ==> r.error == ArgumentNull
    ensures s.data == Splice(old(s.data), old(s.pos), ColumnsBody(old(s.pos), tc))
    ensures s.pos == old(s.pos) + |ColumnsBody(old(s.pos), tc)|
  {
    var cs := tc.columns;
    ghost var d0, p0 := s.data, s.pos;
    WriteColumnsHead(s, tc);
    ghost var head := tc.tableId + Int16Bytes(|cs|) + Int16Bytes(ColumnDescriptorLengthMinusName);
    ghost var start := s.pos;
    ghost var records := ColumnRecords(start, cs[..RecordsWritten(cs)]);
    r := WriteColumnRecords(s, cs);
    ColumnsBodySplices(d0, p0, tc, head, start, records);
  }

  /** The id, the column count and the record size, the fixed start of a column
   *  list's body. */
  method WriteColumnsHead(s: Stream, tc: TableColumns)
    requires s.canWrite && s.pos % 8 == 0 && EncodableColumns(tc)
    modifies s
    ensures s.data == Splice(old(s.data), old(s.pos), tc.tableId + Int16Bytes(|tc.columns|) + Int16Bytes(ColumnDescriptorLengthMinusName))
    ensures s.pos == old(s.pos) + 20
  {
    ghost var d0, p0 := s.data, s.pos;
    ghost var count, size := Int16Bytes(|tc.columns|), Int16Bytes(ColumnDescriptorLengthMinusName);
    ChunkFieldsAligned(p0);
    var _ := WriteGuid(s, tc.tableId);
    ghost var d1, p16 := s.data, s.pos;
    var _ := WriteInt16(s, |tc.columns| as int16);
    ghost var d2, p18 := s.data, s.pos;
    var _ := WriteInt16(s, ColumnDescriptorLengthMinusName);
    ThreeSplices(d0, p0, tc.tableId, d1, p16, count, d2, p18, size, s.data);
  }

  /** The head and the records written after it make the column list's body. */
  lemma ColumnsBodySplices(d0: seq<byte>, p0: nat, tc: TableColumns, head: seq<byte>, start: nat, records: seq<byte>)
    requires EncodableColumns(tc)
    requires head == tc.tableId + Int16Bytes(|tc.columns|) + Int16Bytes(ColumnDescriptorLengthMinusName)
    requires start == p0 + 20 && records == ColumnRecords(start, tc.columns[..RecordsWritten(tc.columns)])
    ensures Splice(Splice(d0, p0, head), start, records) == Splice(d0, p0, ColumnsBody(p0, tc))
    ensures start + |records| == p0 + |ColumnsBody(p0, tc)|
  {
    assert |head| == 20;
    assert ColumnsBody(p0, tc) == head + records;
    SpliceAfter(d0, p0, head, start, records);
  }

  // ---------------------------------------------------------------- the writer

  /** Disposing of a chunk whose data `body` follows its start leaves the whole
   *  chunk written. */
  method CloseChunk(c: ChunkWriter, ghost before: seq<byte>, ghost at: nat, ghost body: seq<byte>)
    requires c.Valid() && c.dataStart == at + |EmitChunkStart(at, c.typeId)| && |body| < 0x1_0000_0000_0000
    requires c.parent.stream.data == Splice(Splice(before, at, EmitChunkStart(at, c.typeId)), c.dataStart, body)
    requires c.parent.stream.pos == c.dataStart + |body|
    modifies c.parent.stream, c.parent`current
    ensures ChunkWritten(before, at, c.typeId, body, c.parent.stream.data, c.parent.stream.pos)
    ensures c.parent.current == if old(c.parent.current) == Some(c) then None else old(c.parent.current)
    ensures old(c.parent.Valid()) ==> c.parent.Valid()
  {
    ghost var d2, pos := c.parent.stream.data, c.parent.stream.pos;
    c.Dispose();
    ChunkCompleted(before, at, c.typeId, body, c.dataStart, c.lengthField.mark,
                   Splice(before, at, EmitChunkStart(at, c.typeId)), d2, pos, c.parent.stream.data);
  }

  class BulkTableFileWriter {
    const stream: Stream
    /** The header the constructor wrote. */
    const header: ChunkedFileHeader
    const writer: ChunkedFileWriter

    constructor (stream: Stream, header: ChunkedFileHeader, writer: ChunkedFileWriter)
      ensures this.stream == stream && this.header == header && this.writer == writer
    {
      this.stream, this.header, this.writer := stream, header, writer;
    }

    /** The chunked writer writes to this writer's stream. */
    ghost predicate Valid()
      reads this, writer
    {
      writer.stream == stream && writer.Valid()
    }

    /** AddTable: a TABL chunk holding the descriptor.  The chunk is closed even
     *  when a null name or schema stops the body. */
    method AddTable(t: TableDescriptor) returns (r: Result<()>)
      requires Valid() && EncodableTable(t)
      modifies stream, writer`current
      ensures Valid()
      ensures old(writer.current).Some? ==>
        r == Failure(InvalidOperation) && writer.current == old(writer.current) &&
        stream.data == old(stream.data) && stream.pos == old(stream.pos)
      ensures old(writer.current).None? ==>
        writer.current == None && (r.Success? <==> t.name.Some? && t.schema.Some?) &&
        (r.Failure? ==> r.error == ArgumentNull) &&
        ChunkWritten(old(stream.data), old(stream.pos), TableNameChunk,
                     TableBody(ChunkDataStart(old(stream.pos)), t), stream.data, stream.pos)
    {
      ghost var before, at := stream.data, stream.pos;
      var chunk := writer.BeginChunk(TableNameChunk);
      if chunk.Failure? {
        return Failure(chunk.error);
      }
      var c := chunk.value;
      ghost var ds := c.dataStart;
      DataStartIs(at, TableNameChunk, ds);
      ghost var body := TableBody(ds, t);
      r := WriteTableBody(stream, t);
      CloseChunk(c, before, at, body);
    }

    /** AddColumns: refuses more columns than a `short` counts before anything
     *  else, then a COLS chunk holding the columns.  The chunk is closed even when
     *  a column without a name stops the body. */
    method AddColumns(tc: TableColumns) returns (r: Result<()>)
      requires Valid() && forall i :: 0 <= i < |tc.columns| ==> EncodableColumn(tc.columns[i])
      modifies stream, writer`current
      ensures Valid()
      ensures |tc.columns| > MaxColumnCount ==>
        r == Failure(ArgumentOutOfRange) && writer.current == old(writer.current) &&
        stream.data == old(stream.data) && stream.pos == old(stream.pos)
      ensures |tc.columns| <= MaxColumnCount && old(writer.current).Some? ==>
        r == Failure(InvalidOperation) && writer.current == old(writer.current) &&
        stream.data == old(stream.data) && stream.pos == old(stream.pos)
      ensures |tc.columns| <= MaxColumnCount && old(writer.current).None? ==>
        writer.current == None && (r.Success? <==> AllNamed(tc.columns)) &&
        (r.Failure? ==> r.error == ArgumentNull) &&
        ChunkWritten(old(stream.data), old(stream.pos), ColumnsChunk,
                     ColumnsBody(ChunkDataStart(old(stream.pos)), tc), stream.data, stream.pos)
    {
      if |tc.columns| > MaxColumnCount {
        return Failure(ArgumentOutOfRange);
      }
      ghost var before, at := stream.data, stream.pos;
      var chunk := writer.BeginChunk(ColumnsChunk);
      if chunk.Failure? {
        return Failure(chunk.error);
      }
      var c := chunk.value;
      ghost var ds := c.dataStart;
      DataStartIs(at, ColumnsChunk, ds);
      ghost var body := ColumnsBody(ds, tc);
      r := WriteColumnsBody(stream, tc);
      CloseChunk(c, before, at, body);
    }

    /** BeginAddRowData: a ROWD chunk holding the table's id, left open for the
     *  row data. */
    method BeginAddRowData(tableId: Guid) returns (r: Result<ChunkWriter>)
      requires Valid()
      modifies stream, writer`current
      ensures Valid()
      ensures old(writer.current).Some? ==>
        r == Failure(InvalidOperation) && writer.current == old(writer.current) &&
        stream.data == old(stream.data) && stream.pos == old(stream.pos)
      ensures old(writer.current).None? ==>
        r.Success? && fresh(r.value) && writer.current == Some(r.value) &&
        r.value.parent == writer && r.value.typeId == RowDataChunk &&
        r.value.dataStart == ChunkDataStart(old(stream.pos)) &&
        stream.data == Splice(old(stream.data), old(stream.pos), EmitChunkStart(old(stream.pos), RowDataChunk) + tableId) &&
        stream.pos == r.value.dataStart + 16
    {
      ghost var before, at := stream.data, stream.pos;
      r := writer.BeginChunk(RowDataChunk);
      if r.Failure? {
        return;
      }
      ghost var ds := r.value.dataStart;
      var _ := WriteGuid(stream, tableId);
      SpliceAfter(before, at, EmitChunkStart(at, RowDataChunk), ds, tableId);
    }
  }

  /** The constructor: writes the file header, then opens the chunked writer,
   *  which refuses a stream that cannot be sought. */
  method Create(stream: Stream) returns (r: Result<BulkTableFileWriter>)
    modifies stream
    ensures r.Success? <==> old(stream.pos) % 8 == 0 && stream.canWrite && stream.canSeek
    ensures r.Failure? ==>
      r.error == if old(stream.pos) % 8 != 0 then InvalidOperation else if !stream.canWrite then NotSupported else Argument
    ensures r.Success? ==>
      fresh(r.value) && fresh(r.value.writer) && r.value.stream == stream && r.value.Valid() &&
      r.value.writer.current == None &&
      r.value.header == ChunkedFileHeader(FileHeader, Version, HeaderSizeBytes) &&
      stream.data == Splice(old(stream.data), old(stream.pos), FileHeaderBytes()) && stream.pos == old(stream.pos) + 8
  {
    var header := WriteHeader(stream, FileHeader);
    if header.Failure? {
      return Failure(header.error);
    }
    var writer := ChunkedFileWriters.Open(stream);
    if writer.Failure? {
      return Failure(writer.error);
    }
    var file := new BulkTableFileWriter(stream, header.value, writer.value);
    return Success(file);
  }
}
