/** What a bulk table file reader makes of what the writer writes: a file holding
 *  one table's descriptor, its column list and its row data reads back as that
 *  table, those columns and exactly those rows, and then as the end of the file.
 *  Also the two ways the reader rejects a file whose chunks do not fit together:
 *  a table id filed twice, and row data for a table whose descriptor or columns
 *  came before it in no chunk. */
module TableFileRoundTrips {
  import opened Wrappers
  import opened Bytes
  import opened Streams
  import opened Serialiser
  import opened ChunkedFileHeaders
  import opened ChunkedFileWriters
  import opened ChunkedFileReaders
  import opened TypeIds
  import opened TableFileFormat
  import opened BulkTableFileWriters
  import opened BulkTableFileReaders

  /** `data` holds, from `at`, the chunk of type `typeId` with data `body` that
   *  the writer puts there: padding, header, data. */
  predicate ChunkAt(data: seq<byte>, at: nat, typeId: uint32, body: seq<byte>)
    requires |body| < 0x8000_0000_0000_0000
  {
    at + |ChunkImage(at, typeId, body)| <= |data| && data[at..at + |ChunkImage(at, typeId, body)|] == ChunkImage(at, typeId, body)
  }

  /** The header the reader finds for that chunk. */
  function Header(at: nat, typeId: uint32, body: seq<byte>): (h: ChunkHeader)
    requires |body| < 0x8000_0000_0000_0000
    ensures h.startOffset + 16 == ChunkDataStart(at) && h.endOffset == at + |ChunkImage(at, typeId, body)|
    ensures h.endOffset == ChunkDataStart(at) + |body| && h.typeId == typeId
    ensures DataWindow(h) == Window(ChunkDataStart(at), |body|)
  {
    var start := at + |ChunkPadding(at)|;
    ChunkHeader(start, start + 16 + |body|, |body|, typeId)
  }

  /** The header and the data of a chunk lie where the reader looks for them. */
  lemma ChunkFields(data: seq<byte>, at: nat, typeId: uint32, body: seq<byte>)
    requires |body| < 0x8000_0000_0000_0000 && ChunkAt(data, at, typeId, body)
    ensures var h := Header(at, typeId, body);
      h.startOffset % 8 == 0 && h.startOffset == at + AlignmentAdjustment(at, 8).value &&
      h.endOffset <= |data| && Inside(data, Some(h)) &&
      data[h.startOffset..h.startOffset + 16] == ChunkHeaderBytes(typeId, |body|) &&
      data[h.startOffset + 16..h.endOffset] == body
  {
    SliceOfParts(data, at, ChunkPadding(at), ChunkHeaderBytes(typeId, |body|), body);
  }

  /** The first chunk, on an 8-byte boundary, is found where it was written. */
  lemma FirstFound(data: seq<byte>, at: nat, typeId: uint32, body: seq<byte>)
    requires at % 8 == 0 && |body| < 0x8000_0000_0000_0000 && ChunkAt(data, at, typeId, body)
    ensures NextChunk(data, true, at, None) == Success(Moved(true, ChunkDataStart(at), Some(Header(at, typeId, body))))
  {
    ChunkFields(data, at, typeId, body);
    FirstChunkFound(data, at, typeId, |body|);
  }

  /** The chunk written right after `prev` is found after it. */
  lemma NextFound(data: seq<byte>, pos: nat, prev: ChunkHeader, at: nat, typeId: uint32, body: seq<byte>)
    requires prev.endOffset == at && |body| < 0x8000_0000_0000_0000 && ChunkAt(data, at, typeId, body)
    ensures NextChunk(data, true, pos, Some(prev)) == Success(Moved(true, ChunkDataStart(at), Some(Header(at, typeId, body))))
  {
    ChunkFields(data, at, typeId, body);
    NextChunkFound(data, pos, prev, typeId, |body|);
  }

  /** The file header of a bulk table file is accepted. */
  lemma Opened(data: seq<byte>)
    requires 8 <= |data| && data[0..8] == FileHeaderBytes()
    ensures OpenFile(data, 0) == Success(8)
  {
    HeaderRoundTrip(data, 0, FileHeader);
  }

  /** A turn that goes on leaves the rest of the loop to the next turn. */
  lemma GoesOn(data: seq<byte>, pos: nat, current: Option<ChunkHeader>, cat: Catalogue, turn: Turn)
    requires Inside(data, current) && TurnAt(data, true, pos, current, cat) == Success(turn) && !turn.stop
    ensures ScanFrom(data, true, pos, current, cat) == ScanFrom(data, true, turn.pos, turn.current, turn.catalogue)
  {
  }

  /** A turn that stops ends the loop where it stopped. */
  lemma StopsAt(data: seq<byte>, pos: nat, current: Option<ChunkHeader>, cat: Catalogue, turn: Turn)
    requires Inside(data, current) && TurnAt(data, true, pos, current, cat) == Success(turn) && turn.stop
    ensures ScanFrom(data, true, pos, current, cat) == Success(Scanned(turn.found, turn.pos, turn.current, turn.catalogue))
  {
  }

  /** A turn that fails ends the loop with its error. */
  lemma FailsAt(data: seq<byte>, pos: nat, current: Option<ChunkHeader>, cat: Catalogue, e: Error)
    requires Inside(data, current) && TurnAt(data, true, pos, current, cat) == Failure(e)
    ensures ScanFrom(data, true, pos, current, cat) == Failure(e)
  {
  }

  /** The first MoveNext over a bulk table file: the header, then the loop from
   *  the first chunk, then what follows the loop. */
  lemma FirstMove(data: seq<byte>, scan: Result<Scanned>)
    requires 8 <= |data| && data[0..8] == FileHeaderBytes()
    requires ScanFrom(data, true, 8, None, NoTables) == scan
    requires scan.Success? ==> Inside(data, scan.value.current)
    requires scan.Success? && scan.value.found ==> scan.value.current.Some? && scan.value.pos == DataWindow(scan.value.current.value).start
    ensures MoveNextAt(data, true, NewReader(0)) == if scan.Failure? then Failure(scan.error) else AfterScan(data, scan.value)
  {
    Opened(data);
  }

  /** The catalogue after the descriptor, and after the column list as well. */
  function TableOnly(t: TableDescriptor): Catalogue
  {
    Catalogue(map[t.id := t], map[])
  }

  function TableAndColumns(t: TableDescriptor, tc: TableColumns): Catalogue
  {
    Catalogue(map[t.id := t], map[tc.tableId := tc])
  }

  /** A TABL chunk written at `at` parses back to its descriptor. */
  lemma TableChunkParses(data: seq<byte>, at: nat, t: TableDescriptor)
    requires WritableTable(t) && |TableBody(ChunkDataStart(at), t)| < 0x8000_0000_0000_0000
    requires ChunkAt(data, at, TableNameChunk, TableBody(ChunkDataStart(at), t))
    ensures var h := Header(at, TableNameChunk, TableBody(ChunkDataStart(at), t));
      Within(data, DataWindow(h), ChunkDataStart(at)) &&
      ParseTableBody(data, DataWindow(h), ChunkDataStart(at)) == Success(Parsed(t, h.endOffset))
  {
    var body := TableBody(ChunkDataStart(at), t);
    var h := Header(at, TableNameChunk, body);
    var ds := ChunkDataStart(at);
    BodyAt(data, at, TableNameChunk, body);
    assert DataWindow(h) == Window(ds, |body|) && h.endOffset == ds + |body|;
    TableBodyRoundTrip(data, DataWindow(h), ds, t, h.endOffset);
  }

  /** A COLS chunk written at `at` parses back to its column list. */
  lemma ColumnsChunkParses(data: seq<byte>, at: nat, tc: TableColumns)
    requires WritableColumns(tc) && |ColumnsBody(ChunkDataStart(at), tc)| < 0x8000_0000_0000_0000
    requires ChunkAt(data, at, ColumnsChunk, ColumnsBody(ChunkDataStart(at), tc))
    ensures var h := Header(at, ColumnsChunk, ColumnsBody(ChunkDataStart(at), tc));
      Within(data, DataWindow(h), ChunkDataStart(at)) &&
      ParseColumnsBody(data, DataWindow(h), ChunkDataStart(at)) == Success(Parsed(tc, h.endOffset))
  {
    var body := ColumnsBody(ChunkDataStart(at), tc);
    var h := Header(at, ColumnsChunk, body);
    var ds := ChunkDataStart(at);
    BodyAt(data, at, ColumnsChunk, body);
    assert DataWindow(h) == Window(ds, |body|) && h.endOffset == ds + |body|;
    ColumnsBodyRoundTrip(data, DataWindow(h), ds, tc, h.endOffset);
  }

  /** A TABL chunk written at `at` is read and filed into `cat` under its id. */
  lemma TableChunkRead(data: seq<byte>, at: nat, t: TableDescriptor, cat: Catalogue, added: Catalogue)
    requires WritableTable(t) && |TableBody(ChunkDataStart(at), t)| < 0x8000_0000_0000_0000
    requires ChunkAt(data, at, TableNameChunk, TableBody(ChunkDataStart(at), t))
    requires AddTable(cat, t) == Success(added)
    ensures var h := Header(at, TableNameChunk, TableBody(ChunkDataStart(at), t));
      ReadChunk(data, h, ChunkDataStart(at), cat) == Success(Parsed(added, h.endOffset))
  {
    var h := Header(at, TableNameChunk, TableBody(ChunkDataStart(at), t));
    TableChunkParses(data, at, t);
    TableFiled(data, h, DataWindow(h), ChunkDataStart(at), cat, t, h.endOffset, added);
  }

  /** A COLS chunk written at `at` is read and filed into `cat` under its table's id. */
  lemma ColumnsChunkRead(data: seq<byte>, at: nat, tc: TableColumns, cat: Catalogue, added: Catalogue)
    requires WritableColumns(tc) && |ColumnsBody(ChunkDataStart(at), tc)| < 0x8000_0000_0000_0000
    requires ChunkAt(data, at, ColumnsChunk, ColumnsBody(ChunkDataStart(at), tc))
    requires AddColumns(cat, tc) == Success(added)
    ensures var h := Header(at, ColumnsChunk, ColumnsBody(ChunkDataStart(at), tc));
      ReadChunk(data, h, ChunkDataStart(at), cat) == Success(Parsed(added, h.endOffset))
  {
    var h := Header(at, ColumnsChunk, ColumnsBody(ChunkDataStart(at), tc));
    ColumnsChunkParses(data, at, tc);
    TagsDistinct();
    ColumnsFiled(data, h, DataWindow(h), ChunkDataStart(at), cat, tc, h.endOffset, added);
  }

  /** ReadChunk files a TABL chunk's descriptor as AddTable does. */
  lemma TableFiled(data: seq<byte>, h: ChunkHeader, w: Window, pos: nat, cat: Catalogue, t: TableDescriptor, end: nat, added: Catalogue)
    requires DataWindow(h) == w && Within(data, w, pos) && h.typeId == TableNameChunk
    requires ParseTableBody(data, w, pos) == Success(Parsed(t, end))
    requires AddTable(cat, t) == Success(added)
    ensures ReadChunk(data, h, pos, cat) == Success(Parsed(added, end))
  {
  }

  /** ReadChunk files a COLS chunk's column list as AddColumns does. */
  lemma ColumnsFiled(data: seq<byte>, h: ChunkHeader, w: Window, pos: nat, cat: Catalogue, tc: TableColumns, end: nat, added: Catalogue)
    requires DataWindow(h) == w && Within(data, w, pos) && h.typeId == ColumnsChunk && ColumnsChunk != TableNameChunk
    requires ParseColumnsBody(data, w, pos) == Success(Parsed(tc, end))
    requires AddColumns(cat, tc) == Success(added)
    ensures ReadChunk(data, h, pos, cat) == Success(Parsed(added, end))
  {
  }

  /** A turn of the loop over a chunk that is read and filed goes on after it. */
  lemma ReadTurn(data: seq<byte>, pos: nat, current: Option<ChunkHeader>, h: ChunkHeader, cat: Catalogue, added: Catalogue)
    requires Inside(data, current) && Inside(data, Some(h)) && Within(data, DataWindow(h), DataWindow(h).start)
    requires NextChunk(data, true, pos, current) == Success(Moved(true, DataWindow(h).start, Some(h)))
    requires h.typeId != RowDataChunk
    requires ReadChunk(data, h, DataWindow(h).start, cat) == Success(Parsed(added, h.endOffset))
    ensures TurnAt(data, true, pos, current, cat) == Success(Turn(false, false, h.endOffset, Some(h), added))
  {
  }

  /** A turn of the loop over a chunk that cannot be read or filed fails. */
  lemma FailedTurn(data: seq<byte>, pos: nat, current: Option<ChunkHeader>, h: ChunkHeader, cat: Catalogue, e: Error)
    requires Inside(data, current) && Inside(data, Some(h)) && Within(data, DataWindow(h), DataWindow(h).start)
    requires NextChunk(data, true, pos, current) == Success(Moved(true, DataWindow(h).start, Some(h)))
    requires h.typeId != RowDataChunk
    requires ReadChunk(data, h, DataWindow(h).start, cat) == Failure(e)
    ensures TurnAt(data, true, pos, current, cat) == Failure(e)
  {
  }

  /** A turn of the loop that reaches row data stops on it. */
  lemma RowTurn(data: seq<byte>, pos: nat, current: Option<ChunkHeader>, h: ChunkHeader, cat: Catalogue)
    requires Inside(data, current) && Inside(data, Some(h))
    requires NextChunk(data, true, pos, current) == Success(Moved(true, DataWindow(h).start, Some(h)))
    requires h.typeId == RowDataChunk
    ensures TurnAt(data, true, pos, current, cat) == Success(Turn(true, true, DataWindow(h).start, Some(h), cat))
  {
  }

  /** A TABL chunk whose id is filed already is refused as Dictionary.Add refuses it. */
  lemma TableChunkRejected(data: seq<byte>, at: nat, t: TableDescriptor, cat: Catalogue)
    requires WritableTable(t) && |TableBody(ChunkDataStart(at), t)| < 0x8000_0000_0000_0000
    requires ChunkAt(data, at, TableNameChunk, TableBody(ChunkDataStart(at), t))
    requires t.id in cat.tables
    ensures var h := Header(at, TableNameChunk, TableBody(ChunkDataStart(at), t));
      ReadChunk(data, h, ChunkDataStart(at), cat) == Failure(Argument)
  {
    var h := Header(at, TableNameChunk, TableBody(ChunkDataStart(at), t));
    TableChunkParses(data, at, t);
    TableRefused(data, h, DataWindow(h), ChunkDataStart(at), cat, t, h.endOffset);
  }

  /** ReadChunk refuses a TABL chunk's descriptor as AddTable does. */
  lemma TableRefused(data: seq<byte>, h: ChunkHeader, w: Window, pos: nat, cat: Catalogue, t: TableDescriptor, end: nat)
    requires DataWindow(h) == w && Within(data, w, pos) && h.typeId == TableNameChunk
    requires ParseTableBody(data, w, pos) == Success(Parsed(t, end))
    requires t.id in cat.tables
    ensures ReadChunk(data, h, pos, cat) == Failure(Argument)
  {
  }

  /** A chunk's body lies at its data start. */
  lemma BodyAt(data: seq<byte>, at: nat, typeId: uint32, body: seq<byte>)
    requires |body| < 0x8000_0000_0000_0000 && ChunkAt(data, at, typeId, body)
    ensures ChunkDataStart(at) + |body| <= |data| && data[ChunkDataStart(at)..ChunkDataStart(at) + |body|] == body
  {
    ChunkFields(data, at, typeId, body);
  }

  /** A row-data chunk begins with a table id that reads back. */
  lemma RowsIdRead(data: seq<byte>, at: nat, id: Guid, rows: seq<byte>)
    requires |rows| < 0x1_0000_0000_0000 && ChunkAt(data, at, RowDataChunk, id + rows)
    ensures var h := Header(at, RowDataChunk, id + rows);
      Within(data, DataWindow(h), ChunkDataStart(at)) &&
      ParseGuid(data, DataWindow(h), ChunkDataStart(at)) == Success(Parsed(id, ChunkDataStart(at) + 16)) &&
      data[ChunkDataStart(at) + 16..h.endOffset] == rows
  {
    var ds := ChunkDataStart(at);
    BodyAt(data, at, RowDataChunk, id + rows);
    SliceAt(data, ds, id, ds + 16, rows, ds + 16 + |rows|);
    GuidRoundTrip(data, Window(ds, 16 + |rows|), ds, true, id);
  }

  /** `img` is a file as the writer lays it out, with the column list's chunk at
   *  `p2` and the row data's at `p3`. */
  predicate Written(img: seq<byte>, t: TableDescriptor, tc: TableColumns, rows: seq<byte>, p2: nat, p3: nat)
  {
    WritableTable(t) && WritableColumns(tc) && tc.tableId == t.id && |rows| < 0x1_0000_0000_0000 &&
    p2 == 8 + |ChunkImage(8, TableNameChunk, TableBody(ChunkDataStart(8), t))| &&
    p3 == p2 + |ChunkImage(p2, ColumnsChunk, ColumnsBody(ChunkDataStart(p2), tc))| &&
    8 <= |img| && img[0..8] == FileHeaderBytes() &&
    ChunkAt(img, 8, TableNameChunk, TableBody(ChunkDataStart(8), t)) &&
    ChunkAt(img, p2, ColumnsChunk, ColumnsBody(ChunkDataStart(p2), tc)) &&
    ChunkAt(img, p3, RowDataChunk, t.id + rows) &&
    |img| == p3 + |ChunkImage(p3, RowDataChunk, t.id + rows)|
  }

  /** The bytes of a whole file as the writer lays them out. */
  lemma FileLayout(t: TableDescriptor, tc: TableColumns, rows: seq<byte>, img: seq<byte>, p2: nat, p3: nat)
    requires WritableTable(t) && WritableColumns(tc) && tc.tableId == t.id && |rows| < 0x1_0000_0000_0000
    requires p2 == 8 + |ChunkImage(8, TableNameChunk, TableBody(ChunkDataStart(8), t))|
    requires p3 == p2 + |ChunkImage(p2, ColumnsChunk, ColumnsBody(ChunkDataStart(p2), tc))|
    requires img == FileImage(t, tc, rows)
    ensures Written(img, t, tc, rows, p2, p3)
  {
    var head := FileHeaderBytes();
    FileImageParts(t, tc, rows, img, p2, p3);
    Layout(img, head, TableNameChunk, TableBody(ChunkDataStart(8), t),
      p2, ColumnsChunk, ColumnsBody(ChunkDataStart(p2), tc), p3, RowDataChunk, t.id + rows);
  }

  /** The file image as the header and three chunk images, each chunk at the end
   *  of the ones before it. */
  lemma FileImageParts(t: TableDescriptor, tc: TableColumns, rows: seq<byte>, img: seq<byte>, p2: nat, p3: nat)
    requires WritableTable(t) && WritableColumns(tc) && tc.tableId == t.id && |rows| < 0x1_0000_0000_0000
    requires p2 == 8 + |ChunkImage(8, TableNameChunk, TableBody(ChunkDataStart(8), t))|
    requires p3 == p2 + |ChunkImage(p2, ColumnsChunk, ColumnsBody(ChunkDataStart(p2), tc))|
    requires img == FileImage(t, tc, rows)
    ensures |FileHeaderBytes()| == 8
    ensures img == ((FileHeaderBytes() + ChunkImage(8, TableNameChunk, TableBody(ChunkDataStart(8), t)))
      + ChunkImage(p2, ColumnsChunk, ColumnsBody(ChunkDataStart(p2), tc))) + ChunkImage(p3, RowDataChunk, t.id + rows)
  {
    var head := FileHeaderBytes();
    var b1, b2 := TableBody(ChunkDataStart(8), t), ColumnsBody(ChunkDataStart(p2), tc);
    var table := AppendChunk(head, TableNameChunk, b1);
    assert |table| == p2;
    assert img == AppendChunk(AppendChunk(table, ColumnsChunk, b2), RowDataChunk, t.id + rows);
    AppendedThrice(head, TableNameChunk, b1, p2, ColumnsChunk, b2, p3, RowDataChunk, t.id + rows);
  }

  /** Three chunks appended one after the other. */
  lemma AppendedThrice(head: seq<byte>, type1: uint32, body1: seq<byte>,
                       p2: nat, type2: uint32, body2: seq<byte>, p3: nat, type3: uint32, body3: seq<byte>)
    requires |body1| < 0x8000_0000_0000_0000 && |body2| < 0x8000_0000_0000_0000 && |body3| < 0x8000_0000_0000_0000
    requires p2 == |head| + |ChunkImage(|head|, type1, body1)|
    requires p3 == p2 + |ChunkImage(p2, type2, body2)|
    ensures AppendChunk(AppendChunk(AppendChunk(head, type1, body1), type2, body2), type3, body3) ==
      ((head + ChunkImage(|head|, type1, body1)) + ChunkImage(p2, type2, body2)) + ChunkImage(p3, type3, body3)
  {
    var one := AppendChunk(head, type1, body1);
    assert one == head + ChunkImage(|head|, type1, body1) && |one| == p2;
    var two := AppendChunk(one, type2, body2);
    assert two == one + ChunkImage(p2, type2, body2) && |two| == p3;
  }

  /** Where each of three chunks appended to a header lies. */
  lemma Layout(img: seq<byte>, head: seq<byte>, type1: uint32, body1: seq<byte>,
               p2: nat, type2: uint32, body2: seq<byte>, p3: nat, type3: uint32, body3: seq<byte>)
    requires |body1| < 0x8000_0000_0000_0000 && |body2| < 0x8000_0000_0000_0000 && |body3| < 0x8000_0000_0000_0000
    requires p2 == |head| + |ChunkImage(|head|, type1, body1)|
    requires p3 == p2 + |ChunkImage(p2, type2, body2)|
    requires img == ((head + ChunkImage(|head|, type1, body1)) + ChunkImage(p2, type2, body2)) + ChunkImage(p3, type3, body3)
    ensures img[0..|head|] == head
    ensures ChunkAt(img, |head|, type1, body1) && ChunkAt(img, p2, type2, body2) && ChunkAt(img, p3, type3, body3)
    ensures |img| == p3 + |ChunkImage(p3, type3, body3)|
  {
    var c1, c2, c3 := ChunkImage(|head|, type1, body1), ChunkImage(p2, type2, body2), ChunkImage(p3, type3, body3);
    SliceAt(img, 0, head + c1 + c2, p3, c3, |img|);
    SliceAt(img, 0, head + c1, p2, c2, p3);
    SliceAt(img, 0, head, |head|, c1, p2);
  }

  /** The reader's loop over a written file: the descriptor is filed, then the
   *  column list, then the loop stops on the row data. */
  lemma ScansWrittenFile(img: seq<byte>, t: TableDescriptor, tc: TableColumns, rows: seq<byte>, p2: nat, p3: nat)
    requires Written(img, t, tc, rows, p2, p3)
    ensures ScanFrom(img, true, 8, None, NoTables) ==
      Success(Scanned(true, ChunkDataStart(p3), Some(Header(p3, RowDataChunk, t.id + rows)), TableAndColumns(t, tc)))
  {
    var b1 := TableBody(ChunkDataStart(8), t);
    var b2 := ColumnsBody(ChunkDataStart(p2), tc);
    var b3 := t.id + rows;
    var h1, h2, h3 := Header(8, TableNameChunk, b1), Header(p2, ColumnsChunk, b2), Header(p3, RowDataChunk, b3);
    var cat1, cat2 := TableOnly(t), TableAndColumns(t, tc);
    TagsDistinct();
    ChunkFields(img, 8, TableNameChunk, b1);
    ChunkFields(img, p2, ColumnsChunk, b2);
    ChunkFields(img, p3, RowDataChunk, b3);

    FirstFound(img, 8, TableNameChunk, b1);
    TableChunkRead(img, 8, t, NoTables, cat1);
    ReadTurn(img, 8, None, h1, NoTables, cat1);
    GoesOn(img, 8, None, NoTables, Turn(false, false, h1.endOffset, Some(h1), cat1));

    NextFound(img, h1.endOffset, h1, p2, ColumnsChunk, b2);
    ColumnsChunkRead(img, p2, tc, cat1, cat2);
    ReadTurn(img, h1.endOffset, Some(h1), h2, cat1, cat2);
    GoesOn(img, h1.endOffset, Some(h1), cat1, Turn(false, false, h2.endOffset, Some(h2), cat2));

    NextFound(img, h2.endOffset, h2, p3, RowDataChunk, b3);
    RowTurn(img, h2.endOffset, Some(h2), h3, cat2);
    StopsAt(img, h2.endOffset, Some(h2), cat2, Turn(true, true, ChunkDataStart(p3), Some(h3), cat2));
  }

  /** Once the last chunk is current, MoveNext finds nothing and moves to the end. */
  lemma NothingAfterLast(data: seq<byte>, pos: nat, h: ChunkHeader, cat: Catalogue)
    requires h.endOffset == |data| && Inside(data, Some(h))
    ensures MoveNextAt(data, true, ReaderState(pos, true, Some(h), cat)) ==
      Success(Move(None, ReaderState(|data|, true, Some(h), cat)))
  {
    LastChunkEnds(data, pos, h);
    StopsAt(data, pos, Some(h), cat, Turn(true, false, |data|, Some(h), cat));
  }

  /** The loop stopping on the row-data chunk of a written file: MoveNext yields
   *  the table filed under the chunk's id, its columns and the rest of the chunk. */
  lemma RowsFound(img: seq<byte>, t: TableDescriptor, tc: TableColumns, rows: seq<byte>, p3: nat)
    requires tc.tableId == t.id && |rows| < 0x1_0000_0000_0000
    requires ChunkAt(img, p3, RowDataChunk, t.id + rows)
    ensures var h := Header(p3, RowDataChunk, t.id + rows);
      Inside(img, Some(h)) &&
      AfterScan(img, Scanned(true, ChunkDataStart(p3), Some(h), TableAndColumns(t, tc))) ==
        Success(Move(Some(TableData(t, tc.columns, Window(ChunkDataStart(p3) + 16, |rows|))),
                     ReaderState(ChunkDataStart(p3) + 16, true, Some(h), TableAndColumns(t, tc))))
  {
    ChunkFields(img, p3, RowDataChunk, t.id + rows);
    RowsIdRead(img, p3, t.id, rows);
  }

  /** What MoveNext makes of `img`, a file holding the table `t`, its columns
   *  `tc` and the row data `rows`: first the table, its columns and a window over
   *  exactly `rows`, which runs to the end of the file, with the descriptor and
   *  the column list filed under the table's id; then nothing more, with the
   *  reader at the end. */
  predicate ReadsBack(img: seq<byte>, t: TableDescriptor, tc: TableColumns, rows: seq<byte>)
  {
    MovesBack(img, MoveNextAt(img, true, NewReader(0)), t, tc, rows)
  }

  /** ReadsBack, given the first MoveNext's outcome. */
  predicate MovesBack(img: seq<byte>, first: Result<Move>, t: TableDescriptor, tc: TableColumns, rows: seq<byte>)
  {
    first.Success? && first.value.found.Some? &&
    first.value.found.value.table == t && first.value.found.value.columns == tc.columns &&
    first.value.found.value.rows.End() == |img| &&
    first.value.found.value.rows.start <= |img| &&
    img[first.value.found.value.rows.start..first.value.found.value.rows.End()] == rows &&
    first.value.state.catalogue == TableAndColumns(t, tc) &&
    Inside(img, first.value.state.current) &&
    MoveNextAt(img, true, first.value.state) == Success(Move(None, first.value.state.(pos := |img|)))
  }

  /** ReadsBack, once the first move is known. */
  lemma ReadsBackFrom(img: seq<byte>, t: TableDescriptor, tc: TableColumns, rows: seq<byte>, m: Move)
    requires MoveNextAt(img, true, NewReader(0)) == Success(m)
    requires MovesBack(img, Success(m), t, tc, rows)
    ensures ReadsBack(img, t, tc, rows)
  {
  }

  /** MovesBack of a first move that found the table at `start`, with the rows
   *  running to the end, and a second that found nothing. */
  lemma MovesBackOf(img: seq<byte>, t: TableDescriptor, tc: TableColumns, rows: seq<byte>, start: nat,
                    h: ChunkHeader, state: ReaderState, m: Move)
    requires m == Move(Some(TableData(t, tc.columns, Window(start, |rows|))), state)
    requires state.catalogue == TableAndColumns(t, tc) && state.current == Some(h)
    requires start + |rows| == |img| && img[start..|img|] == rows
    requires Inside(img, Some(h))
    requires MoveNextAt(img, true, state) == Success(Move(None, state.(pos := |img|)))
    ensures MovesBack(img, Success(m), t, tc, rows)
  {
  }

  /** The first MoveNext over a file laid out as the writer lays it out. */
  lemma WrittenFileOpens(img: seq<byte>, t: TableDescriptor, tc: TableColumns, rows: seq<byte>, p2: nat, p3: nat)
    requires Written(img, t, tc, rows, p2, p3)
    ensures MoveNextAt(img, true, NewReader(0)) ==
      Success(Move(Some(TableData(t, tc.columns, Window(ChunkDataStart(p3) + 16, |rows|))),
                   ReaderState(ChunkDataStart(p3) + 16, true, Some(Header(p3, RowDataChunk, t.id + rows)), TableAndColumns(t, tc))))
  {
    var h := Header(p3, RowDataChunk, t.id + rows);
    ScansWrittenFile(img, t, tc, rows, p2, p3);
    RowsFound(img, t, tc, rows, p3);
    FirstMove(img, Success(Scanned(true, ChunkDataStart(p3), Some(h), TableAndColumns(t, tc))));
  }

  /** The reader, having reached the row-data chunk at `p3`, is left before
   *  exactly `rows`, which run to the end of `img`, and the next MoveNext finds
   *  nothing more. */
  predicate RowsThenEnd(img: seq<byte>, t: TableDescriptor, tc: TableColumns, rows: seq<byte>, p3: nat)
    requires |rows| < 0x1_0000_0000_0000
  {
    var h := Header(p3, RowDataChunk, t.id + rows);
    var ds := ChunkDataStart(p3);
    ds + 16 + |rows| == |img| && img[ds + 16..|img|] == rows && Inside(img, Some(h)) &&
    MoveNextAt(img, true, ReaderState(ds + 16, true, Some(h), TableAndColumns(t, tc))) ==
      Success(Move(None, ReaderState(|img|, true, Some(h), TableAndColumns(t, tc))))
  }

  /** The row-data chunk of a file runs to its end and holds the rows after the
   *  table's id; the MoveNext after the one that reached it finds nothing more. */
  lemma RowsToEnd(img: seq<byte>, t: TableDescriptor, tc: TableColumns, rows: seq<byte>, p3: nat)
    requires |rows| < 0x1_0000_0000_0000 && ChunkAt(img, p3, RowDataChunk, t.id + rows)
    requires |img| == p3 + |ChunkImage(p3, RowDataChunk, t.id + rows)|
    ensures RowsThenEnd(img, t, tc, rows, p3)
  {
    var h := Header(p3, RowDataChunk, t.id + rows);
    ChunkFields(img, p3, RowDataChunk, t.id + rows);
    RowsIdRead(img, p3, t.id, rows);
    NothingAfterLast(img, ChunkDataStart(p3) + 16, h, TableAndColumns(t, tc));
  }

  /** Reading a file laid out as the writer lays it out. */
  lemma WrittenReadsBack(img: seq<byte>, t: TableDescriptor, tc: TableColumns, rows: seq<byte>, p2: nat, p3: nat)
    requires Written(img, t, tc, rows, p2, p3)
    ensures ReadsBack(img, t, tc, rows)
  {
    var m := Move(Some(TableData(t, tc.columns, Window(ChunkDataStart(p3) + 16, |rows|))),
                  ReaderState(ChunkDataStart(p3) + 16, true, Some(Header(p3, RowDataChunk, t.id + rows)), TableAndColumns(t, tc)));
    WrittenFileOpens(img, t, tc, rows, p2, p3);
    WrittenFileEnds(img, t, tc, rows, p3, m);
    ReadsBackFrom(img, t, tc, rows, m);
  }

  /** The move that found the row data of a file laid out as the writer lays it
   *  out is followed by the file's end. */
  lemma WrittenFileEnds(img: seq<byte>, t: TableDescriptor, tc: TableColumns, rows: seq<byte>, p3: nat, m: Move)
    requires |rows| < 0x1_0000_0000_0000 && ChunkAt(img, p3, RowDataChunk, t.id + rows)
    requires |img| == p3 + |ChunkImage(p3, RowDataChunk, t.id + rows)|
    requires m == Move(Some(TableData(t, tc.columns, Window(ChunkDataStart(p3) + 16, |rows|))),
                       ReaderState(ChunkDataStart(p3) + 16, true, Some(Header(p3, RowDataChunk, t.id + rows)), TableAndColumns(t, tc)))
    ensures MovesBack(img, Success(m), t, tc, rows)
  {
    var h := Header(p3, RowDataChunk, t.id + rows);
    var ds := ChunkDataStart(p3);
    RowsToEnd(img, t, tc, rows, p3);
    MovesBackOf(img, t, tc, rows, ds + 16, h, m.state, m);
  }

  /** Reading a written file gives back what was written, and then its end. */
  lemma FileImageReadsBack(t: TableDescriptor, tc: TableColumns, rows: seq<byte>)
    requires WritableTable(t) && WritableColumns(tc) && tc.tableId == t.id && |rows| < 0x1_0000_0000_0000
    ensures ReadsBack(FileImage(t, tc, rows), t, tc, rows)
  {
    var img := FileImage(t, tc, rows);
    var p2 := 8 + |ChunkImage(8, TableNameChunk, TableBody(ChunkDataStart(8), t))|;
    var p3 := p2 + |ChunkImage(p2, ColumnsChunk, ColumnsBody(ChunkDataStart(p2), tc))|;
    FileLayout(t, tc, rows, img, p2, p3);
    WrittenReadsBack(img, t, tc, rows, p2, p3);
  }

  /** A file whose second chunk is a descriptor with the same table id as the
   *  first's: Dictionary.Add throws, and MoveNext fails with Argument. */
  lemma DuplicateTableRejected(img: seq<byte>, t: TableDescriptor, t2: TableDescriptor, p2: nat)
    requires WritableTable(t) && WritableTable(t2) && t2.id == t.id
    requires 8 <= |img| && img[0..8] == FileHeaderBytes()
    requires ChunkAt(img, 8, TableNameChunk, TableBody(ChunkDataStart(8), t))
    requires p2 == 8 + |ChunkImage(8, TableNameChunk, TableBody(ChunkDataStart(8), t))|
    requires ChunkAt(img, p2, TableNameChunk, TableBody(ChunkDataStart(p2), t2))
    ensures MoveNextAt(img, true, NewReader(0)) == Failure(Argument)
  {
    var b1 := TableBody(ChunkDataStart(8), t);
    var b2 := TableBody(ChunkDataStart(p2), t2);
    var h1, h2 := Header(8, TableNameChunk, b1), Header(p2, TableNameChunk, b2);
    var cat1 := TableOnly(t);
    TagsDistinct();
    ChunkFields(img, 8, TableNameChunk, b1);
    ChunkFields(img, p2, TableNameChunk, b2);
    FirstFound(img, 8, TableNameChunk, b1);
    TableChunkRead(img, 8, t, NoTables, cat1);
    ReadTurn(img, 8, None, h1, NoTables, cat1);
    GoesOn(img, 8, None, NoTables, Turn(false, false, h1.endOffset, Some(h1), cat1));
    NextFound(img, h1.endOffset, h1, p2, TableNameChunk, b2);
    TableChunkRejected(img, p2, t2, cat1);
    FailedTurn(img, h1.endOffset, Some(h1), h2, cat1, Argument);
    FailsAt(img, h1.endOffset, Some(h1), cat1, Argument);
    FirstMove(img, Failure(Argument));
  }

  /** A file whose first chunk holds row data: no descriptor has been read for
   *  its table, and MoveNext fails with NotSupported. */
  lemma RowsBeforeTableRejected(img: seq<byte>, id: Guid, rows: seq<byte>)
    requires |rows| < 0x1_0000_0000_0000
    requires 8 <= |img| && img[0..8] == FileHeaderBytes()
    requires ChunkAt(img, 8, RowDataChunk, id + rows)
    ensures MoveNextAt(img, true, NewReader(0)) == Failure(NotSupported)
  {
    var h := Header(8, RowDataChunk, id + rows);
    var ds := ChunkDataStart(8);
    ChunkFields(img, 8, RowDataChunk, id + rows);
    FirstFound(img, 8, RowDataChunk, id + rows);
    RowTurn(img, 8, None, h, NoTables);
    StopsAt(img, 8, None, NoTables, Turn(true, true, ds, Some(h), NoTables));
    FirstMove(img, Success(Scanned(true, ds, Some(h), NoTables)));
    RowsIdRead(img, 8, id, rows);
  }

  /** A file whose descriptor is followed straight by the table's row data: its
   *  column list has not been read, and MoveNext fails with NotSupported. */
  lemma RowsBeforeColumnsRejected(img: seq<byte>, t: TableDescriptor, rows: seq<byte>, p2: nat)
    requires WritableTable(t) && |rows| < 0x1_0000_0000_0000
    requires 8 <= |img| && img[0..8] == FileHeaderBytes()
    requires ChunkAt(img, 8, TableNameChunk, TableBody(ChunkDataStart(8), t))
    requires p2 == 8 + |ChunkImage(8, TableNameChunk, TableBody(ChunkDataStart(8), t))|
    requires ChunkAt(img, p2, RowDataChunk, t.id + rows)
    ensures MoveNextAt(img, true, NewReader(0)) == Failure(NotSupported)
  {
    var b1 := TableBody(ChunkDataStart(8), t);
    var b2 := t.id + rows;
    var h1, h2 := Header(8, TableNameChunk, b1), Header(p2, RowDataChunk, b2);
    var ds := ChunkDataStart(p2);
    var cat1 := TableOnly(t);
    TagsDistinct();
    ChunkFields(img, 8, TableNameChunk, b1);
    ChunkFields(img, p2, RowDataChunk, b2);
    FirstFound(img, 8, TableNameChunk, b1);
    TableChunkRead(img, 8, t, NoTables, cat1);
    ReadTurn(img, 8, None, h1, NoTables, cat1);
    GoesOn(img, 8, None, NoTables, Turn(false, false, h1.endOffset, Some(h1), cat1));
    NextFound(img, h1.endOffset, h1, p2, RowDataChunk, b2);
    RowTurn(img, h1.endOffset, Some(h1), h2, cat1);
    StopsAt(img, h1.endOffset, Some(h1), cat1, Turn(true, true, ds, Some(h2), cat1));
    FirstMove(img, Success(Scanned(true, ds, Some(h2), cat1)));
    RowsIdRead(img, p2, t.id, rows);
  }
}
