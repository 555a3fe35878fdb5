/** The bodies of the chunks of a bulk table file, as the table file writer puts
 *  them down and the table file reader takes them apart.
 *
 *  A TABL chunk holds a table's id, then its name and its schema, each aligned
 *  to 4.  A COLS chunk holds the table's id, the number of columns as a 16-bit
 *  integer, the size of the fixed part of a column record (12), then for each
 *  column, aligned to 4, its index, flags, stored data type and length, then its
 *  name.  The writer checks alignment against positions of the whole file; the
 *  reader against positions relative to the chunk's window, which starts on an
 *  8-byte boundary, so the two agree. */
module TableFileFormat {
  import opened Wrappers
  import opened Bytes
  import opened Streams
  import opened Serialiser
  import Utf8
  import ColumnFlags
  import opened ColumnDescriptors

  /** TableDescriptor: a table's id, name and schema; the two strings may be null. */
  datatype TableDescriptor = TableDescriptor(id: Guid, name: Option<string>, schema: Option<string>)

  /** TableColumns: the id of a table and the descriptors of its columns, in the
   *  order they are stored. */
  datatype TableColumns = TableColumns(tableId: Guid, columns: seq<ColumnDescriptor>)

  /** short.MaxValue, the most columns a table file can describe. */
  const MaxColumnCount: nat := 0x7FFF

  /** The bytes of a column record before its name. */
  const ColumnDescriptorLengthMinusName: int16 := 12

  /** A string whose UTF-8 form a 32-bit length can describe. */
  predicate Encodable(s: string)
  {
    |Utf8.Encode(s)| < 0x8000_0000
  }

  /** A string reference that is null or encodable.  WriteString refuses the null
   *  one before writing anything. */
  predicate NullOrEncodable(s: Option<string>)
  {
    s.Some? ==> Encodable(s.value)
  }

  /** A string reference WriteString accepts: not null, and encodable. */
  predicate Writable(s: Option<string>)
  {
    NullOrEncodable(s) && s.Some?
  }

  /** The zeros AlignWrite puts down at `pos` to reach a multiple of 4. */
  function Pad4(pos: nat): (r: seq<byte>)
    ensures |r| < 4
  {
    Zeros(AlignmentAdjustment(pos, 4).value)
  }

  /** Pad4 is what AlignWrite emits, and it ends on a multiple of 4. */
  lemma Pad4Emitted(pos: nat)
    ensures EmitAlignment(pos, true, 4) == Success(Pad4(pos))
    ensures (pos + |Pad4(pos)|) % 4 == 0
  {
  }

  /** A string as WriteString puts it down: the length of its UTF-8 form, then
   *  that form. */
  function StringField(s: string): (r: seq<byte>)
    requires Encodable(s)
    ensures |r| == 4 + |Utf8.Encode(s)|
  {
    Int32Bytes(|Utf8.Encode(s)|) + Utf8.Encode(s)
  }

  /** At a 4-aligned position of a writable stream, WriteString succeeds and puts
   *  down the string's field. */
  lemma StringFieldEmitted(pos: nat, s: string)
    requires Encodable(s) && pos % 4 == 0
    ensures EmitBytes(pos, true, Utf8.Encode(s)) == Success(StringField(s))
  {
  }

  /** What WriteString puts down: a string's field, or nothing for null. */
  function WrittenString(s: Option<string>): (r: seq<byte>)
    requires NullOrEncodable(s)
    ensures |r| < 0x8000_0004
  {
    if s.Some? then StringField(s.value) else []
  }

  /** AlignWrite to 4 followed by WriteString. */
  function AlignedString(pos: nat, s: Option<string>): (r: seq<byte>)
    requires NullOrEncodable(s)
    ensures |r| < 0x8000_0008
  {
    Pad4(pos) + WrittenString(s)
  }

  /** AlignRead to 4 followed by ReadString. */
  function ParseAlignedString(data: seq<byte>, w: Window, pos: nat): (r: Result<Parsed<string>>)
    requires Within(data, w, pos)
    ensures r.Success? ==> r.value.next >= pos + 4
  {
    var aligned :- AlignReadAt(w, pos, 4);
    ParseString(data, w, aligned.next)
  }

  /** What ParseAlignedString reads where AlignedString was written, through a
   *  window that starts on an 8-byte boundary. */
  lemma AlignedStringRoundTrip(data: seq<byte>, w: Window, at: nat, s: string, end: nat)
    requires Encodable(s) && w.start % 8 == 0 && Within(data, w, at)
    requires end == at + |AlignedString(at, Some(s))| && end <= w.End()
    requires data[at..end] == AlignedString(at, Some(s))
    ensures ParseAlignedString(data, w, at) == Success(Parsed(s, end))
  {
    var pad, field := Pad4(at), StringField(s);
    var q := at + |pad|;
    assert AlignReadAt(w, at, 4) == Success(Parsed((), q)) by {
      Pad4Emitted(at);
      AlignmentRoundTrip(w, at, true, 4);
    }
    assert ParseString(data, w, q) == Success(Parsed(s, end)) by {
      Pad4Emitted(at);
      SliceAt(data, at, pad, q, field, end);
      StringFieldRoundTrip(data, w, q, s, end);
    }
  }

  /** A string's field on a multiple of 4 reads back as the string. */
  lemma StringFieldRoundTrip(data: seq<byte>, w: Window, at: nat, s: string, end: nat)
    requires Encodable(s) && w.start % 8 == 0 && at % 4 == 0 && Within(data, w, at)
    requires end == at + |StringField(s)| && end <= w.End()
    requires data[at..end] == StringField(s)
    ensures ParseString(data, w, at) == Success(Parsed(s, end))
  {
    RelativeAlignment(at, w.start, 4);
    StringFieldEmitted(at, s);
    StringRoundTrip(data, w, at, true, s);
  }

  // ---------------------------------------------------------------- TABL

  /** A descriptor AddTable can write: both strings writable. */
  predicate WritableTable(t: TableDescriptor)
  {
    EncodableTable(t) && t.name.Some? && t.schema.Some?
  }

  /** A descriptor whose strings are null or encodable. */
  predicate EncodableTable(t: TableDescriptor)
  {
    NullOrEncodable(t.name) && NullOrEncodable(t.schema)
  }

  /** What AddTable puts in a TABL chunk whose data starts at `pos`: the id, then
   *  the name and the schema, each aligned to 4.  A null string stops the chunk
   *  after the padding before it. */
  function TableBody(pos: nat, t: TableDescriptor): (r: seq<byte>)
    requires EncodableTable(t)
    ensures |r| < 0x1_0000_0000_0000
  {
    var name := AlignedString(pos + 16, t.name);
    t.id + name + (if t.name.Some? then AlignedString(pos + 16 + |name|, t.schema) else [])
  }

  /** ReadTableChunk: the id, then the name and the schema, each aligned to 4. */
  function ParseTableBody(data: seq<byte>, w: Window, pos: nat): (r: Result<Parsed<TableDescriptor>>)
    requires Within(data, w, pos)
    ensures r.Success? ==> r.value.next >= pos + 24 && r.value.value.name.Some? && r.value.value.schema.Some?
  {
    var id :- ParseGuid(data, w, pos);
    var name :- ParseAlignedString(data, w, id.next);
    var schema :- ParseAlignedString(data, w, name.next);
    Success(Parsed(TableDescriptor(id.value, Some(name.value), Some(schema.value)), schema.next))
  }

  /** The table chunk's body reads back as the descriptor that was written. */
  lemma TableBodyRoundTrip(data: seq<byte>, w: Window, at: nat, t: TableDescriptor, end: nat)
    requires WritableTable(t) && w.start % 8 == 0 && at % 8 == 0 && Within(data, w, at)
    requires end == at + |TableBody(at, t)| && end <= w.End()
    requires data[at..end] == TableBody(at, t)
    ensures ParseTableBody(data, w, at) == Success(Parsed(t, end))
  {
    var p1 := at + 16;
    var name := AlignedString(p1, t.name);
    var p2 := p1 + |name|;
    var schema := AlignedString(p2, t.schema);
    assert data[at..p1] == t.id && data[p1..p2] == name && data[p2..end] == schema by {
      SliceAt3(data, at, t.id, p1, name, p2, schema, end);
    }
    assert ParseGuid(data, w, at) == Success(Parsed(t.id, p1)) by {
      RelativeAlignment(at, w.start, 8);
      GuidRoundTrip(data, w, at, true, t.id);
    }
    AlignedStringRoundTrip(data, w, p1, t.name.value, p2);
    AlignedStringRoundTrip(data, w, p2, t.schema.value, end);
    TableBodyStep(data, w, at, t.id, p1, t.name.value, p2, t.schema.value, end);
  }

  /** ParseTableBody from the results of its three reads. */
  lemma TableBodyStep(data: seq<byte>, w: Window, at: nat, id: Guid, p1: nat, name: string, p2: nat, schema: string, end: nat)
    requires Within(data, w, at) && at <= p1 <= p2
    requires ParseGuid(data, w, at) == Success(Parsed(id, p1))
    requires ParseAlignedString(data, w, p1) == Success(Parsed(name, p2))
    requires ParseAlignedString(data, w, p2) == Success(Parsed(schema, end))
    ensures ParseTableBody(data, w, at) == Success(Parsed(TableDescriptor(id, Some(name), Some(schema)), end))
  {
  }

  // ---------------------------------------------------------------- COLS

  /** The 12 fixed bytes of a column record: index, flags, data type, length. */
  function ColumnFields(c: ColumnDescriptor): (r: seq<byte>)
    ensures |r| == ColumnDescriptorLengthMinusName as nat
  {
    Int16Bytes(c.originalIndex) + Int16Bytes(ColumnFlags.AsShort(c.columnFlags)) + Int32Bytes(c.storedDataType) + Int32Bytes(c.length)
  }

  /** A descriptor AddColumns can write: its name is writable. */
  predicate WritableColumn(c: ColumnDescriptor)
  {
    EncodableColumn(c) && c.originalName.Some?
  }

  /** A descriptor whose name is null or encodable. */
  predicate EncodableColumn(c: ColumnDescriptor)
  {
    NullOrEncodable(c.originalName)
  }

  /** One column's record at `pos`: alignment to 4, the fixed fields, the name;
   *  a null name stops the record after the fixed fields. */
  function ColumnRecord(pos: nat, c: ColumnDescriptor): (r: seq<byte>)
    requires EncodableColumn(c)
    ensures |r| < 0x8000_0013
  {
    Pad4(pos) + ColumnFields(c) + WrittenString(c.originalName)
  }

  /** The records of `cs`, one after the other from `pos`. */
  function ColumnRecords(pos: nat, cs: seq<ColumnDescriptor>): (r: seq<byte>)
    requires forall i :: 0 <= i < |cs| ==> EncodableColumn(cs[i])
    ensures |r| <= |cs| * 0x8000_0013
  {
    if |cs| == 0 then []
    else
      var init := ColumnRecords(pos, cs[..|cs| - 1]);
      init + ColumnRecord(pos + |init|, cs[|cs| - 1])
  }

  /** Every column has a name. */
  predicate AllNamed(cs: seq<ColumnDescriptor>)
  {
    forall i :: 0 <= i < |cs| ==> cs[i].originalName.Some?
  }

  /** Column lists AddColumns can write whole. */
  predicate WritableColumns(tc: TableColumns)
  {
    EncodableColumns(tc) && AllNamed(tc.columns)
  }

  /** The number of leading columns that have a name. */
  function NamedPrefix(cs: seq<ColumnDescriptor>): (k: nat)
    ensures k <= |cs| && (k < |cs| ==> cs[k].originalName.None?)
    ensures forall j :: 0 <= j < k ==> cs[j].originalName.Some?
  {
    if |cs| == 0 || cs[0].originalName.None? then 0 else 1 + NamedPrefix(cs[1..])
  }

  /** How many records AddColumns writes: up to and including the first column
   *  without a name, where it stops. */
  function RecordsWritten(cs: seq<ColumnDescriptor>): (n: nat)
    ensures n <= |cs|
    ensures n == |cs| <==> forall j :: 0 <= j < |cs| - 1 ==> cs[j].originalName.Some?
  {
    var k := NamedPrefix(cs);
    if k < |cs| then k + 1 else k
  }

  /** Column lists whose names are null or encodable, few enough to count in a
   *  `short`. */
  predicate EncodableColumns(tc: TableColumns)
  {
    |tc.columns| <= MaxColumnCount && forall i :: 0 <= i < |tc.columns| ==> EncodableColumn(tc.columns[i])
  }

  /** What AddColumns puts in a COLS chunk whose data starts at `pos`: the id, the
   *  count, the record size, then the records, up to and including the first
   *  column without a name. */
  function ColumnsBody(pos: nat, tc: TableColumns): (r: seq<byte>)
    requires EncodableColumns(tc)
    ensures |r| < 0x1_0000_0000_0000
  {
    tc.tableId + Int16Bytes(|tc.columns|) + Int16Bytes(ColumnDescriptorLengthMinusName)
      + ColumnRecords(pos + 20, tc.columns[..RecordsWritten(tc.columns)])
  }

  /** The fixed fields of a column record; the name is read after them. */
  function ParseColumnFields(data: seq<byte>, w: Window, pos: nat): (r: Result<Parsed<ColumnDescriptor>>)
    requires Within(data, w, pos)
    ensures r.Success? ==> r.value.next == pos + 12
  {
    var index :- ParseInt16(data, w, pos);
    var flags :- ParseInt16(data, w, index.next);
    var dataType :- ParseInt32(data, w, flags.next);
    var length :- ParseInt32(data, w, dataType.next);
    Success(Parsed(ColumnDescriptor(None, ColumnFlags.OfShort(flags.value), index.value, dataType.value, length.value), length.next))
  }

  /** One iteration of ReadColumnsChunk's loop: align to 4, the fixed fields, then
   *  the name. */
  function ParseColumnRecord(data: seq<byte>, w: Window, pos: nat): (r: Result<Parsed<ColumnDescriptor>>)
    requires Within(data, w, pos)
    ensures r.Success? ==> r.value.next >= pos + 16 && r.value.value.originalName.Some?
  {
    var aligned :- AlignReadAt(w, pos, 4);
    var fields :- ParseColumnFields(data, w, aligned.next);
    var name :- ParseString(data, w, fields.next);
    Success(Parsed(fields.value.(originalName := Some(name.value)), name.next))
  }

  /** The first `n` iterations of ReadColumnsChunk's loop, from `pos`. */
  function ParseColumnRecords(data: seq<byte>, w: Window, pos: nat, n: nat): (r: Result<Parsed<seq<ColumnDescriptor>>>)
    requires Within(data, w, pos)
    ensures r.Success? ==> |r.value.value| == n && r.value.next >= pos
  {
    if n == 0 then Success(Parsed([], pos))
    else
      var init :- ParseColumnRecords(data, w, pos, n - 1);
      var c :- ParseColumnRecord(data, w, init.next);
      Success(Parsed(init.value + [c.value], c.next))
  }

  /** ReadColumnsChunk: the id, the count, the ignored record size, then the
   *  records; a negative count cannot size the array. */
  function ParseColumnsBody(data: seq<byte>, w: Window, pos: nat): (r: Result<Parsed<TableColumns>>)
    requires Within(data, w, pos)
    ensures r.Success? ==> r.value.next >= pos + 20 && |r.value.value.columns| <= MaxColumnCount
  {
    var id :- ParseGuid(data, w, pos);
    var count :- ParseInt16(data, w, id.next);
    var ignored :- ParseInt16(data, w, count.next);
    if count.value < 0 then Failure(Overflow)
    else
      var columns :- ParseColumnRecords(data, w, ignored.next, count.value);
      Success(Parsed(TableColumns(id.value, columns.value), columns.next))
  }

  /** Every field of a record whose fixed part starts on a multiple of 4 is aligned
   *  to its width. */
  lemma FieldsAligned(q: nat)
    requires q % 4 == 0
    ensures CheckAlignment(q, 2).Success? && CheckAlignment(q + 2, 2).Success?
    ensures CheckAlignment(q + 4, 4).Success? && CheckAlignment(q + 8, 4).Success? && (q + 12) % 4 == 0
  {
    var k := q / 4;
    DivModUnique(q, 2, 2 * k, 0);
    DivModUnique(q + 2, 2, 2 * k + 1, 0);
    DivModUnique(q + 4, 4, k + 1, 0);
    DivModUnique(q + 8, 4, k + 2, 0);
    DivModUnique(q + 12, 4, k + 3, 0);
  }

  /** The fixed fields read back as the descriptor's, without its name. */
  lemma ColumnFieldsRoundTrip(data: seq<byte>, w: Window, at: nat, c: ColumnDescriptor)
    requires w.start % 8 == 0 && at % 4 == 0 && Within(data, w, at) && at + 12 <= w.End()
    requires data[at..at + 12] == ColumnFields(c)
    ensures ParseColumnFields(data, w, at) == Success(Parsed(c.(originalName := None), at + 12))
  {
    var index, flags := Int16Bytes(c.originalIndex), Int16Bytes(ColumnFlags.AsShort(c.columnFlags));
    var dataType, length := Int32Bytes(c.storedDataType), Int32Bytes(c.length);
    var p2, p4, p8, end := at + 2, at + 4, at + 8, at + 12;
    assert data[at..p2] == index && data[p2..p4] == flags && data[p4..p8] == dataType && data[p8..end] == length by {
      SliceAt(data, at, index + flags + dataType, p8, length, end);
      SliceAt3(data, at, index, p2, flags, p4, dataType, p8);
    }
    FieldsAligned(at);
    assert ParseInt16(data, w, at) == Success(Parsed(c.originalIndex, p2)) by {
      RelativeAlignment(at, w.start, 2);
      Int16RoundTrip(data, w, at, true, c.originalIndex);
    }
    assert ParseInt16(data, w, p2) == Success(Parsed(ColumnFlags.AsShort(c.columnFlags), p4)) by {
      RelativeAlignment(p2, w.start, 2);
      Int16RoundTrip(data, w, p2, true, ColumnFlags.AsShort(c.columnFlags));
    }
    assert ParseInt32(data, w, p4) == Success(Parsed(c.storedDataType, p8)) by {
      RelativeAlignment(p4, w.start, 4);
      Int32RoundTrip(data, w, p4, true, c.storedDataType);
    }
    assert ParseInt32(data, w, p8) == Success(Parsed(c.length, end)) by {
      RelativeAlignment(p8, w.start, 4);
      Int32RoundTrip(data, w, p8, true, c.length);
    }
    ColumnFlags.ShortRoundTrip(c.columnFlags);
    ColumnFieldsStep(data, w, at, c.originalIndex, ColumnFlags.AsShort(c.columnFlags), c.storedDataType, c.length);
  }

  /** ParseColumnFields from the results of its four reads. */
  lemma ColumnFieldsStep(data: seq<byte>, w: Window, at: nat, index: int16, flags: int16, dataType: int32, length: int32)
    requires Within(data, w, at)
    requires ParseInt16(data, w, at) == Success(Parsed(index, at + 2))
    requires ParseInt16(data, w, at + 2) == Success(Parsed(flags, at + 4))
    requires ParseInt32(data, w, at + 4) == Success(Parsed(dataType, at + 8))
    requires ParseInt32(data, w, at + 8) == Success(Parsed(length, at + 12))
    ensures ParseColumnFields(data, w, at) == Success(Parsed(ColumnDescriptor(None, ColumnFlags.OfShort(flags), index, dataType, length), at + 12))
  {
  }

  /** A column record reads back as the descriptor that was written. */
  lemma ColumnRecordRoundTrip(data: seq<byte>, w: Window, at: nat, c: ColumnDescriptor, end: nat)
    requires WritableColumn(c) && w.start % 8 == 0 && Within(data, w, at)
    requires end == at + |ColumnRecord(at, c)| && end <= w.End()
    requires data[at..end] == ColumnRecord(at, c)
    ensures ParseColumnRecord(data, w, at) == Success(Parsed(c, end))
  {
    var pad, fields, name := Pad4(at), ColumnFields(c), StringField(c.originalName.value);
    var q := at + |pad|;
    var n := q + 12;
    assert data[at..q] == pad && data[q..n] == fields && data[n..end] == name by {
      SliceAt3(data, at, pad, q, fields, n, name, end);
    }
    assert q % 4 == 0 && AlignReadAt(w, at, 4) == Success(Parsed((), q)) by {
      Pad4Emitted(at);
      AlignmentRoundTrip(w, at, true, 4);
    }
    assert ParseColumnFields(data, w, q) == Success(Parsed(c.(originalName := None), n)) by {
      ColumnFieldsRoundTrip(data, w, q, c);
    }
    assert ParseString(data, w, n) == Success(Parsed(c.originalName.value, end)) by {
      FieldsAligned(q);
      StringFieldRoundTrip(data, w, n, c.originalName.value, end);
    }
    ColumnRecordStep(data, w, at, q, c.(originalName := None), n, c.originalName.value, end);
  }

  /** ParseColumnRecord from the results of its three steps. */
  lemma ColumnRecordStep(data: seq<byte>, w: Window, at: nat, q: nat, fields: ColumnDescriptor, n: nat, name: string, end: nat)
    requires Within(data, w, at) && at <= q <= n
    requires AlignReadAt(w, at, 4) == Success(Parsed((), q))
    requires ParseColumnFields(data, w, q) == Success(Parsed(fields, n))
    requires ParseString(data, w, n) == Success(Parsed(name, end))
    ensures ParseColumnRecord(data, w, at) == Success(Parsed(fields.(originalName := Some(name)), end))
  {
  }

  /** The records of a column list read back as that list, in order. */
  lemma {:induction false} ColumnRecordsRoundTrip(data: seq<byte>, w: Window, at: nat, cs: seq<ColumnDescriptor>, end: nat)
    requires forall i :: 0 <= i < |cs| ==> EncodableColumn(cs[i])
    requires AllNamed(cs) && w.start % 8 == 0 && Within(data, w, at)
    requires end == at + |ColumnRecords(at, cs)| && end <= w.End()
    requires data[at..end] == ColumnRecords(at, cs)
    ensures ParseColumnRecords(data, w, at, |cs|) == Success(Parsed(cs, end))
    decreases |cs|
  {
    if |cs| > 0 {
      var init, last, mid := RecordsSplit(data, w, at, cs, end);
      assert ParseColumnRecords(data, w, at, |cs| - 1) == Success(Parsed(init, mid)) by {
        ColumnRecordsRoundTrip(data, w, at, init, mid);
      }
      assert ParseColumnRecord(data, w, mid) == Success(Parsed(last, end)) by {
        ColumnRecordRoundTrip(data, w, mid, last, end);
      }
      RecordsStep(data, w, at, |cs|, init, mid, last, end);
    }
  }

  /** The records of all but the last column, then the last column's record. */
  lemma RecordsSplit(data: seq<byte>, w: Window, at: nat, cs: seq<ColumnDescriptor>, end: nat)
      returns (init: seq<ColumnDescriptor>, last: ColumnDescriptor, mid: nat)
    requires forall i :: 0 <= i < |cs| ==> EncodableColumn(cs[i])
    requires AllNamed(cs) && w.start % 8 == 0 && Within(data, w, at)
    requires end == at + |ColumnRecords(at, cs)| && end <= w.End()
    requires data[at..end] == ColumnRecords(at, cs)
    requires |cs| > 0
    ensures cs == init + [last]
    ensures (forall i :: 0 <= i < |init| ==> EncodableColumn(init[i])) && AllNamed(init) && WritableColumn(last)
    ensures mid == at + |ColumnRecords(at, init)| && Within(data, w, mid) && end == mid + |ColumnRecord(mid, last)|
    ensures data[at..mid] == ColumnRecords(at, init) && data[mid..end] == ColumnRecord(mid, last)
  {
    init, last := cs[..|cs| - 1], cs[|cs| - 1];
    var head := ColumnRecords(at, init);
    mid := at + |head|;
    var record := ColumnRecord(mid, last);
    assert ColumnRecords(at, cs) == head + record;
    SliceAt(data, at, head, mid, record, end);
    InitAndLast(cs);
  }

  /** One more iteration of the loop adds the record it reads. */
  lemma RecordsStep(data: seq<byte>, w: Window, at: nat, n: nat, init: seq<ColumnDescriptor>, mid: nat, c: ColumnDescriptor, end: nat)
    requires Within(data, w, at) && n > 0 && mid >= at
    requires ParseColumnRecords(data, w, at, n - 1) == Success(Parsed(init, mid))
    requires ParseColumnRecord(data, w, mid) == Success(Parsed(c, end))
    ensures ParseColumnRecords(data, w, at, n) == Success(Parsed(init + [c], end))
  {
  }

  lemma InitAndLast(cs: seq<ColumnDescriptor>)
    requires |cs| > 0
    ensures cs[..|cs| - 1] + [cs[|cs| - 1]] == cs
  {
  }

  /** The columns chunk's body reads back as the column list that was written. */
  lemma ColumnsBodyRoundTrip(data: seq<byte>, w: Window, at: nat, tc: TableColumns, end: nat)
    requires WritableColumns(tc) && w.start % 8 == 0 && at % 8 == 0 && Within(data, w, at)
    requires end == at + |ColumnsBody(at, tc)| && end <= w.End()
    requires data[at..end] == ColumnsBody(at, tc)
    ensures ParseColumnsBody(data, w, at) == Success(Parsed(tc, end))
  {
    var head := tc.tableId + Int16Bytes(|tc.columns|) + Int16Bytes(ColumnDescriptorLengthMinusName);
    var records := ColumnRecords(at + 20, tc.columns);
    assert tc.columns[..RecordsWritten(tc.columns)] == tc.columns;
    var p20 := at + 20;
    assert data[at..p20] == head && data[p20..end] == records by {
      SliceAt(data, at, head, p20, records, end);
    }
    ColumnsHeadRoundTrip(data, w, at, tc.tableId, |tc.columns|);
    ColumnRecordsRoundTrip(data, w, p20, tc.columns, end);
    ColumnsBodyStep(data, w, at, tc.tableId, |tc.columns|, tc.columns, end);
  }

  /** The id, the count and the record size read back. */
  lemma ColumnsHeadRoundTrip(data: seq<byte>, w: Window, at: nat, id: Guid, count: int16)
    requires w.start % 8 == 0 && at % 8 == 0 && Within(data, w, at) && at + 20 <= w.End()
    requires data[at..at + 20] == id + Int16Bytes(count) + Int16Bytes(ColumnDescriptorLengthMinusName)
    ensures ParseGuid(data, w, at) == Success(Parsed(id, at + 16))
    ensures ParseInt16(data, w, at + 16) == Success(Parsed(count, at + 18))
    ensures ParseInt16(data, w, at + 18).Success?
  {
    var countBytes, size := Int16Bytes(count), Int16Bytes(ColumnDescriptorLengthMinusName);
    var p16, p18, p20 := at + 16, at + 18, at + 20;
    SliceAt3(data, at, id, p16, countBytes, p18, size, p20);
    ChunkFieldsAligned(at);
    RelativeAlignment(at, w.start, 8);
    GuidRoundTrip(data, w, at, true, id);
    RelativeAlignment(p16, w.start, 2);
    Int16RoundTrip(data, w, p16, true, count);
    RelativeAlignment(p18, w.start, 2);
    Int16RoundTrip(data, w, p18, true, ColumnDescriptorLengthMinusName);
  }

  /** ParseColumnsBody from the results of its reads. */
  lemma ColumnsBodyStep(data: seq<byte>, w: Window, at: nat, id: Guid, count: int16, columns: seq<ColumnDescriptor>, end: nat)
    requires Within(data, w, at) && count >= 0
    requires ParseGuid(data, w, at) == Success(Parsed(id, at + 16))
    requires ParseInt16(data, w, at + 16) == Success(Parsed(count, at + 18))
    requires ParseInt16(data, w, at + 18).Success?
    requires ParseColumnRecords(data, w, at + 20, count as nat) == Success(Parsed(columns, end))
    ensures ParseColumnsBody(data, w, at) == Success(Parsed(TableColumns(id, columns), end))
  {
  }

  /** The count and size fields after the id of an 8-aligned body are aligned. */
  lemma ChunkFieldsAligned(at: nat)
    requires at % 8 == 0
    ensures CheckAlignment(at, 8).Success? && CheckAlignment(at + 16, 2).Success? && CheckAlignment(at + 18, 2).Success?
  {
    var k := at / 8;
    DivModUnique(at + 16, 2, 4 * k + 8, 0);
    DivModUnique(at + 18, 2, 4 * k + 9, 0);
  }
}
