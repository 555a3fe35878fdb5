/** BulkTableFileReader: reads a bulk table file back.  It checks the file header,
 *  then walks the chunks, filing each table descriptor (TABL) and column list
 *  (COLS) under its table's id and passing over chunks of other types, until a
 *  row-data chunk (ROWD).  The table id at the start of that chunk picks out the
 *  table's descriptor and columns, and the rest of the chunk is its row data. */
module BulkTableFileReaders {
  import opened Wrappers
  import opened Bytes
  import opened Streams
  import opened Serialiser
  import opened RangeStreams
  import opened ChunkedFileHeaders
  import opened ChunkedFileReaders
  import opened TypeIds
  import ColumnFlags
  import ColumnDataType
  import opened ColumnDescriptors
  import opened TableFileFormat

  /** The two dictionaries of the reader: descriptors and column lists by table id. */
  datatype Catalogue = Catalogue(tables: map<Guid, TableDescriptor>, columns: map<Guid, TableColumns>)

  const NoTables := Catalogue(map[], map[])

  /** Every entry is filed under its own table's id. */
  predicate Keyed(cat: Catalogue)
  {
    (forall id :: id in cat.tables ==> cat.tables[id].id == id) &&
    (forall id :: id in cat.columns ==> cat.columns[id].tableId == id)
  }

  /** `later` keeps every entry of `earlier` as it was. */
  predicate Extends(earlier: Catalogue, later: Catalogue)
  {
    (forall id :: id in earlier.tables ==> id in later.tables && later.tables[id] == earlier.tables[id]) &&
    (forall id :: id in earlier.columns ==> id in later.columns && later.columns[id] == earlier.columns[id])
  }

  /** IBulkTableData as read: the table, its columns and the window of its row data. */
  datatype TableData = TableData(table: TableDescriptor, columns: seq<ColumnDescriptor>, rows: Window)

  /** EnsureReader's reading: the file header at `pos`, which must be a bulk table
   *  file's; the chunks start after it. */
  function OpenFile(data: seq<byte>, pos: nat): (r: Result<nat>)
    ensures r.Success? <==> ParseHeader(data, pos).Success? && ParseHeader(data, pos).value.value.fileTypeId == FileHeader
    ensures r.Success? ==> r.value == pos + 8
    ensures r.Failure? && ParseHeader(data, pos).Success? ==> r.error == UnrecognisedFileFormat
  {
    var header :- ParseHeader(data, pos);
    if header.value.fileTypeId != FileHeader then Failure(UnrecognisedFileFormat)
    else Success(header.next)
  }

  /** Dictionary.Add of a descriptor under its id: the id must not be there yet. */
  function AddTable(cat: Catalogue, t: TableDescriptor): (r: Result<Catalogue>)
    ensures r.Success? <==> t.id !in cat.tables
    ensures r.Failure? ==> r.error == Argument
    ensures r.Success? ==> r.value.tables == cat.tables[t.id := t] && r.value.columns == cat.columns
    ensures r.Success? ==> Extends(cat, r.value) && (Keyed(cat) ==> Keyed(r.value))
  {
    if t.id in cat.tables then Failure(Argument)
    else Success(cat.(tables := cat.tables[t.id := t]))
  }

  /** Dictionary.Add of a column list under its table's id. */
  function AddColumns(cat: Catalogue, tc: TableColumns): (r: Result<Catalogue>)
    ensures r.Success? <==> tc.tableId !in cat.columns
    ensures r.Failure? ==> r.error == Argument
    ensures r.Success? ==> r.value.columns == cat.columns[tc.tableId := tc] && r.value.tables == cat.tables
    ensures r.Success? ==> Extends(cat, r.value) && (Keyed(cat) ==> Keyed(r.value))
  {
    if tc.tableId in cat.columns then Failure(Argument)
    else Success(cat.(columns := cat.columns[tc.tableId := tc]))
  }

  /** One turn of ReadUpToNextBulkData's loop over a chunk `h` other than row data,
   *  read from `pos`: a descriptor or a column list is read and added under its
   *  id; any other chunk is passed over. */
  function ReadChunk(data: seq<byte>, h: ChunkHeader, pos: nat, cat: Catalogue): (r: Result<Parsed<Catalogue>>)
    requires Within(data, DataWindow(h), pos)
    ensures r.Success? ==> Extends(cat, r.value.value) && (Keyed(cat) ==> Keyed(r.value.value))
    ensures h.typeId != TableNameChunk && h.typeId != ColumnsChunk ==> r == Success(Parsed(cat, pos))
  {
    if h.typeId == TableNameChunk then
      var t :- ParseTableBody(data, DataWindow(h), pos);
      var added :- AddTable(cat, t.value);
      Success(Parsed(added, t.next))
    else if h.typeId == ColumnsChunk then
      var tc :- ParseColumnsBody(data, DataWindow(h), pos);
      var added :- AddColumns(cat, tc.value);
      Success(Parsed(added, tc.next))
    else Success(Parsed(cat, pos))
  }

  /** Where ReadUpToNextBulkData stops: on a row-data chunk or at the end, the
   *  position, the current chunk and the catalogue. */
  datatype Scanned = Scanned(found: bool, pos: nat, current: Option<ChunkHeader>, catalogue: Catalogue)

  /** A current chunk lies inside the stream, as MoveNext leaves it. */
  predicate Inside(data: seq<byte>, current: Option<ChunkHeader>)
  {
    current.Some? ==>
      DataWindow(current.value).End() <= |data| && current.value.endOffset == DataWindow(current.value).End()
  }

  /** How much of the stream is left past the current chunk's header. */
  function Progress(data: seq<byte>, current: Option<ChunkHeader>): nat
    requires Inside(data, current)
  {
    if current.None? then |data| + 1 else |data| - current.value.startOffset
  }

  /** Where one turn of ReadUpToNextBulkData's loop leaves the reader, and whether
   *  the loop stops there (`stop`) and on a row-data chunk (`found`). */
  datatype Turn = Turn(stop: bool, found: bool, pos: nat, current: Option<ChunkHeader>, catalogue: Catalogue)

  /** One turn of ReadUpToNextBulkData's loop from `pos`, with `current` the
   *  current chunk: MoveNext, then stop at the end or on a row-data chunk, or
   *  read the chunk and go on. */
  function TurnAt(data: seq<byte>, canSeek: bool, pos: nat, current: Option<ChunkHeader>, cat: Catalogue): (r: Result<Turn>)
    requires Inside(data, current)
    ensures r.Success? ==> Inside(data, r.value.current) && Extends(cat, r.value.catalogue)
    ensures r.Success? && Keyed(cat) ==> Keyed(r.value.catalogue)
    ensures r.Success? && !r.value.stop ==> Progress(data, r.value.current) < Progress(data, current)
    ensures r.Success? && r.value.found ==>
              r.value.stop && r.value.current.Some? && r.value.current.value.typeId == RowDataChunk &&
              r.value.pos == DataWindow(r.value.current.value).start
  {
    var m :- NextChunk(data, canSeek, pos, current);
    if !m.found then Success(Turn(true, false, m.pos, m.current, cat))
    else if m.current.value.typeId == RowDataChunk then Success(Turn(true, true, m.pos, m.current, cat))
    else
      var read :- ReadChunk(data, m.current.value, m.pos, cat);
      Success(Turn(false, false, read.next, m.current, read.value))
  }

  /** ReadUpToNextBulkData's loop from `pos`, with `current` the current chunk. */
  function ScanFrom(data: seq<byte>, canSeek: bool, pos: nat, current: Option<ChunkHeader>, cat: Catalogue): (r: Result<Scanned>)
    requires Inside(data, current)
    ensures r.Success? ==> Inside(data, r.value.current) && Extends(cat, r.value.catalogue)
    ensures r.Success? && Keyed(cat) ==> Keyed(r.value.catalogue)
    ensures r.Success? && r.value.found ==>
              r.value.current.Some? && r.value.current.value.typeId == RowDataChunk &&
              r.value.pos == DataWindow(r.value.current.value).start
    decreases Progress(data, current)
  {
    var turn :- TurnAt(data, canSeek, pos, current, cat);
    if turn.stop then Success(Scanned(turn.found, turn.pos, turn.current, turn.catalogue))
    else ScanFrom(data, canSeek, turn.pos, turn.current, turn.catalogue)
  }

  /** BeginReadBulkData on the chunk `h`, read from `pos`: the chunk must hold row
   *  data; then the table's id, whose descriptor and then column list must have
   *  been read; then WindowRemaining over the chunk's range, which is the rest of
   *  the chunk. */
  function BeginData(data: seq<byte>, h: ChunkHeader, pos: nat, cat: Catalogue): (r: Result<Parsed<TableData>>)
    requires Within(data, DataWindow(h), pos)
    ensures r.Success? ==> r.value.next == pos + 16 && r.value.value.rows.start == pos + 16 && r.value.value.rows.End() == DataWindow(h).End()
  {
    var w := DataWindow(h);
    if h.typeId != RowDataChunk then Failure(InvalidOperation)
    else
      var id :- ParseGuid(data, w, pos);
      if id.value !in cat.tables then Failure(NotSupported)
      else if id.value !in cat.columns then Failure(NotSupported)
      else
        var rest :- RemainingRange(id.next - w.start, Some(w.length));
        Success(Parsed(TableData(cat.tables[id.value], cat.columns[id.value].columns, Window(w.start + rest.start, rest.length)), id.next))
  }

  /** A table's data comes with the column list filed under the table's own id:
   *  the debug assertion of the BulkTableData constructor holds. */
  lemma BeginDataMatches(data: seq<byte>, h: ChunkHeader, pos: nat, cat: Catalogue)
    requires Within(data, DataWindow(h), pos) && Keyed(cat) && BeginData(data, h, pos, cat).Success?
    ensures var d := BeginData(data, h, pos, cat).value.value;
      d.table.id in cat.columns && cat.columns[d.table.id].columns == d.columns &&
      cat.columns[d.table.id].tableId == d.table.id && cat.tables[d.table.id] == d.table
  {
  }

  /** The state of a BulkTableFileReader: the stream's position, whether the
   *  chunked reader exists, its current chunk, and the catalogue. */
  datatype ReaderState = ReaderState(pos: nat, started: bool, current: Option<ChunkHeader>, catalogue: Catalogue)

  /** A reader just constructed over a stream at `pos`. */
  function NewReader(pos: nat): ReaderState
  {
    ReaderState(pos, false, None, NoTables)
  }

  /** ReadUpToNextBulkData: EnsureReader, then the loop. */
  function ReadUpTo(data: seq<byte>, canSeek: bool, st: ReaderState): (r: Result<Scanned>)
    requires Inside(data, st.current)
  {
    if st.started then ScanFrom(data, canSeek, st.pos, st.current, st.catalogue)
    else
      var start :- OpenFile(data, st.pos);
      ScanFrom(data, canSeek, start, None, st.catalogue)
  }

  /** The outcome of MoveNext: the table found, if any, and the new state. */
  datatype Move = Move(found: Option<TableData>, state: ReaderState)

  /** Where ReadUpToNextBulkData left off, with the reader in use. */
  function Resumed(scan: Scanned): ReaderState
  {
    ReaderState(scan.pos, true, scan.current, scan.catalogue)
  }

  /** The second half of MoveNext: at the end of the file nothing is found;
   *  otherwise BeginReadBulkData on the row-data chunk. */
  function AfterScan(data: seq<byte>, scan: Scanned): (r: Result<Move>)
    requires Inside(data, scan.current)
    requires scan.found ==> scan.current.Some? && scan.pos == DataWindow(scan.current.value).start
    ensures r.Success? ==> r.value.state.started && r.value.state.current == scan.current
    ensures r.Success? ==> r.value.state.catalogue == scan.catalogue
    ensures r.Success? && r.value.found.Some? ==>
              r.value.state.current.Some? &&
              r.value.found.value.rows.End() == r.value.state.current.value.endOffset <= |data|
  {
    if !scan.found then Success(Move(None, Resumed(scan)))
    else
      var d :- BeginData(data, scan.current.value, scan.pos, scan.catalogue);
      Success(Move(Some(d.value), Resumed(scan).(pos := d.next)))
  }

  /** MoveNext: the next table and its row data, or none at the end of the file. */
  function MoveNextAt(data: seq<byte>, canSeek: bool, st: ReaderState): (r: Result<Move>)
    requires Inside(data, st.current)
    ensures r.Success? ==> r.value.state.started && Inside(data, r.value.state.current)
    ensures r.Success? ==> Extends(st.catalogue, r.value.state.catalogue)
    ensures r.Success? && Keyed(st.catalogue) ==> Keyed(r.value.state.catalogue)
    ensures r.Success? && r.value.found.Some? ==>
              r.value.state.current.Some? &&
              r.value.found.value.rows.End() == r.value.state.current.value.endOffset <= |data|
  {
    var scan :- ReadUpTo(data, canSeek, st);
    AfterScan(data, scan)
  }

  /** A method's result and the reader's new state are those `f` describes. */
  predicate ScanAgrees(r: Result<bool>, f: Result<Scanned>, st: ReaderState)
  {
    match f
    case Failure(e) => r == Failure(e)
    case Success(s) => r == Success(s.found) && st == ReaderState(s.pos, true, s.current, s.catalogue)
  }

  predicate MoveAgrees(r: Result<bool>, f: Result<Move>, st: ReaderState, found: Option<TableData>)
  {
    match f
    case Failure(e) => r == Failure(e)
    case Success(m) => r == Success(m.found.Some?) && st == m.state && found == m.found
  }

  // ---------------------------------------------------------------- the reader

  /** ReadTableChunk: the id, then the name and the schema, each aligned to 4,
   *  read through the chunk's range. */
  method ReadTableChunk(chunk: ChunkReader) returns (r: Result<TableDescriptor>)
    requires chunk.range.stream.Readable(chunk.range.window)
    modifies chunk.range.stream`pos
    ensures chunk.range.stream.Readable(chunk.range.window)
    ensures Agrees(r, ParseTableBody(chunk.range.stream.data, chunk.range.window, old(chunk.range.stream.pos)), chunk.range.stream.pos)
  {
    var s, w := chunk.range.stream, chunk.range.window;
    var tableId := ReadGuid(s, w);
    if tableId.Failure? {
      return Failure(tableId.error);
    }
    var tableName := ReadAlignedString(s, w);
    if tableName.Failure? {
      return Failure(tableName.error);
    }
    var tableSchema := ReadAlignedString(s, w);
    if tableSchema.Failure? {
      return Failure(tableSchema.error);
    }
    return Success(TableDescriptor(tableId.value, Some(tableName.value), Some(tableSchema.value)));
  }

  /** AlignRead to 4, then ReadString. */
  method ReadAlignedString(s: Stream, w: Window) returns (r: Result<string>)
    requires s.Readable(w)
    modifies s`pos
    ensures s.Readable(w) && Agrees(r, ParseAlignedString(s.data, w, old(s.pos)), s.pos)
  {
    var aligned := AlignRead(s, w, 4);
    if aligned.Failure? {
      return Failure(aligned.error);
    }
    r := ReadString(s, w);
  }

  /** One turn of ReadColumnsChunk's loop: align to 4, the four fixed fields, then
   *  the name. */
  method ReadColumnRecord(s: Stream, w: Window) returns (r: Result<ColumnDescriptor>)
    requires s.Readable(w)
    modifies s`pos
    ensures s.Readable(w) && Agrees(r, ParseColumnRecord(s.data, w, old(s.pos)), s.pos)
  {
    var aligned := AlignRead(s, w, 4);
    if aligned.Failure? {
      return Failure(aligned.error);
    }
    var index := ReadInt16(s, w);
    if index.Failure? {
      return Failure(index.error);
    }
    var flags := ReadInt16(s, w);
    if flags.Failure? {
      return Failure(flags.error);
    }
    var dataType := ReadInt32(s, w);
    if dataType.Failure? {
      return Failure(dataType.error);
    }
    var length := ReadInt32(s, w);
    if length.Failure? {
      return Failure(length.error);
    }
    var name := ReadString(s, w);
    if name.Failure? {
      return Failure(name.error);
    }
    return Success(ColumnDescriptor(Some(name.value), ColumnFlags.OfShort(flags.value), index.value, dataType.value, length.value));
  }

  /** The descriptor `new ColumnDescriptor()` starts as. */
  const BlankColumn := ColumnDescriptor(None, ColumnFlags.NoFlags, 0, ColumnDataType.Invalid, 0)

  /** A failed iteration of ReadColumnsChunk's loop ends the loop with its error. */
  lemma {:induction false} RecordsFailure(data: seq<byte>, w: Window, at: nat, i: nat, n: nat, e: Error)
    requires Within(data, w, at) && i <= n && ParseColumnRecords(data, w, at, i) == Failure(e)
    ensures ParseColumnRecords(data, w, at, n) == Failure(e)
    decreases n - i
  {
    if i < n {
      FailureStep(data, w, at, i + 1, e);
      RecordsFailure(data, w, at, i + 1, n, e);
    }
  }

  lemma FailureStep(data: seq<byte>, w: Window, at: nat, n: nat, e: Error)
    requires Within(data, w, at) && n > 0 && ParseColumnRecords(data, w, at, n - 1) == Failure(e)
    ensures ParseColumnRecords(data, w, at, n) == Failure(e)
  {
  }

  /** An iteration of ReadColumnsChunk's loop whose record cannot be read fails
   *  the loop with the record's error. */
  lemma RecordFailed(data: seq<byte>, w: Window, at: nat, n: nat, init: seq<ColumnDescriptor>, mid: nat, e: Error)
    requires Within(data, w, at) && n > 0
    requires ParseColumnRecords(data, w, at, n - 1) == Success(Parsed(init, mid))
    requires ParseColumnRecord(data, w, mid) == Failure(e)
    ensures ParseColumnRecords(data, w, at, n) == Failure(e)
  {
  }

  /** The `n`th iteration of ReadColumnsChunk's loop, reading `rec` from `mid`
   *  where the first `n - 1` left off: it adds the record read, or its failure
   *  is the loop's failure. */
  lemma RecordReadAt(data: seq<byte>, w: Window, at: nat, n: nat, count: nat, init: seq<ColumnDescriptor>, mid: nat, rec: Result<ColumnDescriptor>, end: nat)
    requires Within(data, w, at) && 0 < n <= count && mid >= at
    requires ParseColumnRecords(data, w, at, n - 1) == Success(Parsed(init, mid))
    requires Agrees(rec, ParseColumnRecord(data, w, mid), end)
    ensures rec.Failure? ==> ParseColumnRecords(data, w, at, count) == Failure(rec.error)
    ensures rec.Success? ==> ParseColumnRecords(data, w, at, n) == Success(Parsed(init + [rec.value], end))
  {
    var f := ParseColumnRecord(data, w, mid);
    if f.Failure? {
      RecordFailed(data, w, at, n, init, mid, f.error);
      RecordsFailure(data, w, at, n, count, f.error);
    } else {
      RecordsStep(data, w, at, n, init, mid, f.value.value, f.value.next);
    }
  }

  /** ReadColumnsChunk's loop: `count` records into an array of that size. */
  method ReadColumnRecords(s: Stream, w: Window, count: nat) returns (r: Result<seq<ColumnDescriptor>>)
    requires s.Readable(w)
    modifies s`pos
    ensures s.Readable(w) && Agrees(r, ParseColumnRecords(s.data, w, old(s.pos), count), s.pos)
  {
    ghost var start := s.pos;
    var columns: seq<ColumnDescriptor> := [];
    for i := 0 to count
      invariant s.Readable(w) && s.data == old(s.data)
      invariant ParseColumnRecords(s.data, w, start, i) == Success(Parsed(columns, s.pos))
    {
      var next := ReadNextRecord(s, w, start, i, count, columns);
      if next.Failure? {
        return Failure(next.error);
      }
      columns := next.value;
    }
    return Success(columns);
  }

  /** One iteration of ReadColumnsChunk's loop: the record after the first `i`. */
  method ReadNextRecord(s: Stream, w: Window, ghost start: nat, ghost i: nat, ghost count: nat, columns: seq<ColumnDescriptor>)
    returns (r: Result<seq<ColumnDescriptor>>)
    requires s.Readable(w) && Within(s.data, w, start) && i < count
    requires ParseColumnRecords(s.data, w, start, i) == Success(Parsed(columns, s.pos))
    modifies s`pos
    ensures s.Readable(w) && s.data == old(s.data)
    ensures r.Success? ==> ParseColumnRecords(s.data, w, start, i + 1) == Success(Parsed(r.value, s.pos))
    ensures r.Failure? ==> ParseColumnRecords(s.data, w, start, count) == Failure(r.error)
  {
    ghost var mid := s.pos;
    var column := ReadColumnRecord(s, w);
    RecordReadAt(s.data, w, start, i + 1, count, columns, mid, column, s.pos);
    if column.Failure? {
      return Failure(column.error);
    }
    return Success(columns + [column.value]);
  }

  /** ReadColumnsChunk: the id, the count, the ignored record size, then one record
   *  per column; a negative count cannot size the array. */
  method ReadColumnsChunk(chunk: ChunkReader) returns (r: Result<TableColumns>)
    requires chunk.range.stream.Readable(chunk.range.window)
    modifies chunk.range.stream`pos
    ensures chunk.range.stream.Readable(chunk.range.window)
    ensures Agrees(r, ParseColumnsBody(chunk.range.stream.data, chunk.range.window, old(chunk.range.stream.pos)), chunk.range.stream.pos)
  {
    var s, w := chunk.range.stream, chunk.range.window;
    var tableId := ReadGuid(s, w);
    if tableId.Failure? {
      return Failure(tableId.error);
    }
    var count := ReadInt16(s, w);
    if count.Failure? {
      return Failure(count.error);
    }
    var ignored := ReadInt16(s, w);
    if ignored.Failure? {
      return Failure(ignored.error);
    }
    if count.value < 0 {
      return Failure(Overflow);
    }
    var columns := ReadColumnRecords(s, w, count.value as nat);
    if columns.Failure? {
      return Failure(columns.error);
    }
    return Success(TableColumns(tableId.value, columns.value));
  }

  /** IBulkTableData: the table, its columns, and its row data as a stream. */
  class BulkTableData {
    const table: TableDescriptor
    const columns: seq<ColumnDescriptor>
    const dataStream: RangeStream

    constructor (table: TableDescriptor, columns: seq<ColumnDescriptor>, dataStream: RangeStream)
      ensures this.table == table && this.columns == columns && this.dataStream == dataStream
    {
      this.table, this.columns, this.dataStream := table, columns, dataStream;
    }
  }

  class BulkTableFileReader {
    const stream: Stream
    var reader: Option<ChunkedFileReader>
    var tables: map<Guid, TableDescriptor>
    var tableColumns: map<Guid, TableColumns>
    var current: Option<BulkTableData>

    constructor (stream: Stream)
      ensures this.stream == stream && reader == None && current == None
      ensures tables == map[] && tableColumns == map[] && Valid()
    {
      this.stream := stream;
      reader, current := None, None;
      tables, tableColumns := map[], map[];
    }

    ghost function Readers(): set<ChunkedFileReader>
      reads this
    {
      if reader.Some? then {reader.value} else {}
    }

    /** The current chunk's window, which a move can close. */
    ghost function Ranges(): set<RangeStream>
      reads this, Readers()
    {
      if reader.Some? then reader.value.Ranges() else {}
    }

    /** The chunked reader reads this reader's stream. */
    ghost predicate Valid()
      reads this, Readers(), stream`data
    {
      reader.Some? ==> reader.value.stream == stream && reader.value.Valid()
    }

    ghost function State(): ReaderState
      reads this, Readers(), stream
    {
      ReaderState(stream.pos, reader.Some?, if reader.Some? then reader.value.Current() else None, Catalogue(tables, tableColumns))
    }

    /** The table MoveNext last found. */
    ghost function CurrentData(): Option<TableData>
      reads this
    {
      if current.Some? then Some(TableData(current.value.table, current.value.columns, current.value.dataStream.window)) else None
    }

    /** A valid reader's current chunk lies inside the stream. */
    lemma StateInside()
      requires Valid()
      ensures Inside(stream.data, State().current)
    {
    }

    /** EnsureReader: on the first call, reads the file header and creates the
     *  chunked reader; a file of another type throws and leaves no reader. */
    method EnsureReader() returns (r: Result<()>)
      requires Valid()
      modifies this`reader, stream`pos
      ensures Valid()
      ensures old(reader).Some? ==> r.Success? && reader == old(reader) && stream.pos == old(stream.pos)
      ensures old(reader).None? ==> (r.Success? <==> OpenFile(stream.data, old(stream.pos)).Success?)
      ensures old(reader).None? && r.Failure? ==> r.error == OpenFile(stream.data, old(stream.pos)).error && reader == None
      ensures old(reader).None? && r.Success? ==>
                reader.Some? && fresh(reader.value) && reader.value.Current() == None &&
                stream.pos == OpenFile(stream.data, old(stream.pos)).value
    {
      if reader.Some? {
        return Success(());
      }
      var header := ReadHeader(stream);
      if header.Failure? {
        return Failure(header.error);
      }
      if header.value.fileTypeId != FileHeader {
        return Failure(UnrecognisedFileFormat);
      }
      var chunked := new ChunkedFileReader(stream, header.value);
      reader := Some(chunked);
      return Success(());
    }

    /** ReadUpToNextBulkData: files each descriptor and column list met, and stops
     *  on a row-data chunk (true) or at the end of the file (false). */
    method ReadUpToNextBulkData() returns (r: Result<bool>)
      requires Valid()
      modifies this`reader, this`tables, this`tableColumns, stream`pos, Readers(), Ranges()
      ensures Valid() && current == old(current)
      ensures ScanAgrees(r, ReadUpTo(old(stream.data), stream.canSeek, old(State())), State())
      ensures r.Success? ==> reader.Some? && (reader.value in old(Readers()) || fresh(reader.value))
    {
      StateInside();
      var ensured := EnsureReader();
      if ensured.Failure? {
        return Failure(ensured.error);
      }
      r := ScanChunks(reader.value);
    }

    /** ReadUpToNextBulkData's loop, once the chunked reader exists. */
    method ScanChunks(rd: ChunkedFileReader) returns (r: Result<bool>)
      requires Valid() && reader == Some(rd)
      modifies this`tables, this`tableColumns, stream`pos, rd`current, rd.Ranges()`open
      ensures Valid()
      ensures old(Inside(stream.data, rd.Current()))
      ensures ScanAgrees(r, ScanFrom(stream.data, stream.canSeek, old(stream.pos), old(rd.Current()), old(Catalogue(tables, tableColumns))), State())
    {
      ghost var goal := ScanFrom(stream.data, stream.canSeek, stream.pos, rd.Current(), Catalogue(tables, tableColumns));
      while true
        invariant Valid()
        invariant forall o :: o in rd.Ranges() ==> o in old(rd.Ranges()) || fresh(o)
        invariant Inside(stream.data, rd.Current())
        invariant ScanFrom(stream.data, stream.canSeek, stream.pos, rd.Current(), Catalogue(tables, tableColumns)) == goal
        decreases Progress(stream.data, rd.Current())
      {
        var step := ScanStep(rd);
        if step.Failure? {
          return Failure(step.error);
        }
        if step.value.Some? {
          return Success(step.value.value);
        }
        assert Inside(stream.data, rd.Current());
      }
    }

    /** One turn of ReadUpToNextBulkData's loop: MoveNext, then stop at the end
     *  (Some(false)) or on row data (Some(true)), or read the chunk and go on (None). */
    method ScanStep(rd: ChunkedFileReader) returns (r: Result<Option<bool>>)
      requires rd.stream == stream && rd.Valid()
      modifies this`tables, this`tableColumns, stream`pos, rd`current, rd.Ranges()`open
      ensures rd.Valid()
      ensures forall o :: o in rd.Ranges() ==> o in old(rd.Ranges()) || fresh(o)
      ensures old(Inside(stream.data, rd.Current()))
      ensures match TurnAt(stream.data, stream.canSeek, old(stream.pos), old(rd.Current()), old(Catalogue(tables, tableColumns)))
        case Failure(e) => r == Failure(e)
        case Success(t) =>
          r == (if t.stop then Success(Some(t.found)) else Success(None)) &&
          stream.pos == t.pos && rd.Current() == t.current && Catalogue(tables, tableColumns) == t.catalogue
    {
      var moved := rd.MoveNext();
      if moved.Failure? {
        r := Failure(moved.error);
      } else if !moved.value {
        r := Success(Some(false));
      } else if rd.current.value.TypeId() == RowDataChunk {
        r := Success(Some(true));
      } else {
        var read := ReadChunkInto(rd.current.value);
        r := if read.Failure? then Failure(read.error) else Success(None);
      }
    }

    /** A turn of ReadUpToNextBulkData's loop over a chunk other than row data: a
     *  descriptor or a column list is read and added under its id, which must not
     *  be there yet; any other chunk is passed over. */
    method ReadChunkInto(chunk: ChunkReader) returns (r: Result<()>)
      requires chunk.range.stream.Readable(chunk.range.window) && chunk.range.window == DataWindow(chunk.header)
      modifies this`tables, this`tableColumns, chunk.range.stream`pos
      ensures chunk.range.stream.Readable(chunk.range.window)
      ensures r.Failure? ==> tables == old(tables) && tableColumns == old(tableColumns)
      ensures var f := ReadChunk(chunk.range.stream.data, chunk.header, old(chunk.range.stream.pos), old(Catalogue(tables, tableColumns)));
        match f
        case Failure(e) => r == Failure(e)
        case Success(p) => r == Success(()) && chunk.range.stream.pos == p.next && Catalogue(tables, tableColumns) == p.value
    {
      var cat := Catalogue(tables, tableColumns);
      if chunk.TypeId() == TableNameChunk {
        var table := ReadTableChunk(chunk);
        if table.Failure? {
          return Failure(table.error);
        }
        var added := AddTable(cat, table.value);
        if added.Failure? {
          return Failure(added.error);
        }
        tables := tables[table.value.id := table.value];
      } else if chunk.TypeId() == ColumnsChunk {
        var columns := ReadColumnsChunk(chunk);
        if columns.Failure? {
          return Failure(columns.error);
        }
        var added := AddColumns(cat, columns.value);
        if added.Failure? {
          return Failure(added.error);
        }
        tableColumns := tableColumns[columns.value.tableId := columns.value];
      }
      return Success(());
    }

    /** BeginReadBulkData: the chunk must hold row data; then the table's id, whose
     *  descriptor and column list must have been read; the row data is a range
     *  over the rest of the chunk. */
    method BeginReadBulkData(chunk: ChunkReader) returns (r: Result<BulkTableData>)
      requires chunk.range.stream.Readable(chunk.range.window) && chunk.range.window == DataWindow(chunk.header)
      modifies chunk.range.stream`pos
      ensures Agrees(if r.Success? then Success(TableData(r.value.table, r.value.columns, r.value.dataStream.window)) else Failure(r.error),
                     BeginData(chunk.range.stream.data, chunk.header, old(chunk.range.stream.pos), Catalogue(tables, tableColumns)),
                     chunk.range.stream.pos)
      ensures r.Success? ==> fresh(r.value) && fresh(r.value.dataStream) && r.value.dataStream.stream == chunk.range.stream
    {
      if chunk.TypeId() != RowDataChunk {
        return Failure(InvalidOperation);
      }
      var s, w := chunk.range.stream, chunk.range.window;
      var tableId := ReadGuid(s, w);
      if tableId.Failure? {
        return Failure(tableId.error);
      }
      if tableId.value !in tables {
        return Failure(NotSupported);
      }
      if tableId.value !in tableColumns {
        return Failure(NotSupported);
      }
      var rest := RemainingRange(chunk.range.Position(), Some(chunk.range.Length()));
      if rest.Failure? {
        return Failure(rest.error);
      }
      var dataStream := new RangeStream(s, Window(w.start + rest.value.start, rest.value.length));
      var data := new BulkTableData(tables[tableId.value], tableColumns[tableId.value].columns, dataStream);
      return Success(data);
    }

    /** MoveNext: forgets the current table, then finds the next one and begins
     *  reading its row data; false at the end of the file. */
    method MoveNext() returns (r: Result<bool>)
      requires Valid()
      modifies this, stream`pos, Readers(), Ranges()
      ensures Valid()
      ensures MoveAgrees(r, MoveNextAt(old(stream.data), stream.canSeek, old(State())), State(), CurrentData())
      ensures r.Failure? ==> current == None
    {
      StateInside();
      ghost var st := State();
      current := None;
      var found := ReadUpToNextBulkData();
      if found.Failure? {
        return Failure(found.error);
      }
      ghost var scan := ReadUpTo(stream.data, stream.canSeek, st).value;
      r := BeginCurrent(found.value, scan);
    }

    /** MoveNext after ReadUpToNextBulkData has stopped at `scan`: nothing at the
     *  end of the file, or the table whose row data the current chunk holds. */
    method BeginCurrent(found: bool, ghost scan: Scanned) returns (r: Result<bool>)
      requires Valid() && current == None && State() == Resumed(scan) && found == scan.found
      requires Inside(stream.data, scan.current)
      requires scan.found ==> scan.current.Some? && scan.pos == DataWindow(scan.current.value).start
      modifies this`current, stream`pos
      ensures Valid()
      ensures MoveAgrees(r, AfterScan(stream.data, scan), State(), CurrentData())
      ensures r.Failure? ==> current == None
    {
      if !found {
        return Success(false);
      }
      var data := BeginReadBulkData(reader.value.current.value);
      if data.Failure? {
        return Failure(data.error);
      }
      current := Some(data.value);
      return Success(true);
    }
  }
}
