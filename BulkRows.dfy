/** BulkRowWriter and BulkRowReader over the library's column serialisers: each
 *  works on a stream step by step, and each is proved to do exactly what `EmitRow`
 *  and `ParseRow` say of the serialisers of its columns. */
module BulkRows {
  import opened Wrappers
  import opened Bytes
  import opened Streams
  import opened Serialiser
  import opened BitSets
  import ColumnFlags
  import Columns
  import opened ColumnSerialisers
  import opened NullFieldMaps
  import opened Rows
  import TypeIds

  class BulkRowWriter {
    const stream: Stream
    const nullFieldMap: NullFieldMap
    /** Columns: the serialisers, in column order. */
    const codecs: seq<Columns.ValidCodec>
    /** The serialisers of the columns, as the row format sees them. */
    ghost const columns: seq<ColumnSerialiser>

    /** The map has one flag per column and packs the nullable ones. */
    ghost predicate Valid()
    {
      SerialisersOf(columns, codecs) && nullFieldMap.Valid() && nullFieldMap.indexes == NullableIndexes(columns) &&
      nullFieldMap.nullFields.Length == |codecs|
    }

    constructor (stream: Stream, codecs: seq<Columns.ValidCodec>)
      ensures Valid() && this.stream == stream && this.codecs == codecs && columns == Serialisers(codecs)
      ensures fresh(nullFieldMap) && fresh(nullFieldMap.nullFields) && fresh(nullFieldMap.buffer)
    {
      this.stream := stream;
      this.codecs := codecs;
      columns := Serialisers(codecs);
      SerialisersOfIs(Serialisers(codecs), codecs);
      nullFieldMap := new NullFieldMap(Serialisers(codecs));
    }

    /** Write: the row for `record` at the stream's position, exactly as EmitRow
     *  lays it; an error is the one EmitRow reports. */
    method Write(record: seq<Columns.Value>) returns (r: Result<()>)
      requires Valid()
      modifies stream, nullFieldMap.buffer, nullFieldMap.nullFields
      ensures Valid()
      ensures Emitted(r, EmitRow(columns, old(stream.pos), stream.canWrite, record), old(stream.data), old(stream.pos), stream.data, stream.pos)
    {
      ghost var before, at := stream.data, stream.pos;
      r := WritePreamble(record);
      if r.Failure? {
        RowPreambleFails(columns, at, stream.canWrite, record);
        return;
      }
      ghost var preamble := EmitPreamble(columns, at, stream.canWrite, record).value;
      ghost var d4, fieldsAt := stream.data, stream.pos;
      r := WriteFields(record);
      ghost var fields := EmitFields(columns, fieldsAt, stream.canWrite, record);
      RowWritten(columns, at, stream.canWrite, record, preamble, fieldsAt, fields);
      if r.Success? {
        SpliceAfter(before, at, preamble, fieldsAt, fields.value);
      }
    }

    /** Write up to its loop: the padding, the marker, the null flags of the record
     *  into the map, the map and the second padding. */
    method WritePreamble(record: seq<Columns.Value>) returns (r: Result<()>)
      requires Valid()
      modifies stream, nullFieldMap.buffer, nullFieldMap.nullFields
      ensures Valid()
      ensures Emitted(r, EmitPreamble(columns, old(stream.pos), stream.canWrite, record), old(stream.data), old(stream.pos), stream.data, stream.pos)
      ensures r.Success? ==> |codecs| <= |record| && forall i :: 0 <= i < |codecs| ==> nullFieldMap.nullFields[i] == record[i].DBNull?
    {
      ghost var before, at := stream.data, stream.pos;
      r := AlignWrite(stream, 4);
      if r.Failure? {
        return;
      }
      ghost var pad := EmitAlignment(at, stream.canWrite, 4).value;
      ghost var d1, p1 := stream.data, stream.pos;
      r := WriteByte(stream, TypeIds.RowHeader);
      if |record| < |codecs| {
        return Failure(IndexOutOfRange);
      }
      for i := 0 to |codecs|
        modifies nullFieldMap.nullFields
        invariant forall j :: 0 <= j < i ==> nullFieldMap.nullFields[j] == record[j].DBNull?
      {
        nullFieldMap.nullFields[i] := record[i].DBNull?;
      }
      assert nullFieldMap.nullFields[..] == NullFlags(record, |columns|);
      ghost var bitmap := RowBitmap(columns, record);
      ghost var d2, p2 := stream.data, stream.pos;
      r := nullFieldMap.Write(stream);
      ghost var d3, p3 := stream.data, stream.pos;
      r := AlignWrite(stream, 4);
      ghost var pad2 := EmitAlignment(p3, stream.canWrite, 4).value;
      ghost var preamble := PreambleWritten(columns, record, stream.canWrite, before, at, pad, d1, p1, d2, p2, bitmap, d3, p3, pad2, stream.data, stream.pos);
      r := Success(());
    }

    /** Write's loop: WriteColumn for each column in turn, as EmitFields lays the
     *  fields, given the record's null flags in the map. */
    method WriteFields(record: seq<Columns.Value>) returns (r: Result<()>)
      requires SerialisersOf(columns, codecs) && |codecs| == nullFieldMap.nullFields.Length && |codecs| <= |record|
      requires forall i :: 0 <= i < |codecs| ==> nullFieldMap.nullFields[i] == record[i].DBNull?
      modifies stream
      ensures Emitted(r, EmitFields(columns, old(stream.pos), stream.canWrite, record), old(stream.data), old(stream.pos), stream.data, stream.pos)
    {
      ghost var d4, fieldsAt := stream.data, stream.pos;
      ghost var write := ColumnWriter(columns, stream.canWrite, record);
      ghost var fields: seq<byte> := [];
      for i := 0 to |codecs|
        invariant stream.data == Splice(d4, fieldsAt, fields) && stream.pos == fieldsAt + |fields|
        invariant Laid(write, fieldsAt, i) == Success(fields)
      {
        r, fields := WriteNext(record, i, write, d4, fieldsAt, fields);
        if r.Failure? {
          LaidFails(write, fieldsAt, i + 1, |codecs|);
          return;
        }
      }
      r := Success(());
    }

    /** One turn of WriteFields: field `i` written where the fields before it ended. */
    method WriteNext(record: seq<Columns.Value>, i: nat, ghost write: (nat, nat) -> Result<seq<byte>>,
                     ghost d4: seq<byte>, ghost fieldsAt: nat, ghost fields: seq<byte>) returns (r: Result<()>, ghost next: seq<byte>)
      requires SerialisersOf(columns, codecs)
      requires i < |codecs| == nullFieldMap.nullFields.Length && |codecs| <= |record| && nullFieldMap.nullFields[i] == record[i].DBNull?
      requires write == ColumnWriter(columns, stream.canWrite, record)
      requires stream.data == Splice(d4, fieldsAt, fields) && stream.pos == fieldsAt + |fields|
      requires Laid(write, fieldsAt, i) == Success(fields)
      modifies stream
      ensures r.Success? ==> stream.data == Splice(d4, fieldsAt, next) && stream.pos == fieldsAt + |next|
      ensures r.Success? ==> Laid(write, fieldsAt, i + 1) == Success(next)
      ensures r.Failure? ==> Laid(write, fieldsAt, i + 1) == Failure(r.error)
    {
      ghost var pos := stream.pos;
      ghost var field := EmitColumn(columns[i], pos, stream.canWrite, record[i]);
      r := WriteColumn(record, i);
      LaidNext(write, fieldsAt, i, fields, pos, field);
      next := fields;
      if r.Success? {
        SpliceAfter(d4, fieldsAt, fields, pos, field.value);
        next := fields + field.value;
      }
    }

    /** WriteColumn: nothing for a null its column leaves out, the serialiser's
     *  Write otherwise. */
    method WriteColumn(record: seq<Columns.Value>, i: nat) returns (r: Result<()>)
      requires SerialisersOf(columns, codecs)
      requires i < |codecs| == nullFieldMap.nullFields.Length && |codecs| <= |record| && nullFieldMap.nullFields[i] == record[i].DBNull?
      modifies stream
      ensures Emitted(r, EmitColumn(columns[i], old(stream.pos), stream.canWrite, record[i]), old(stream.data), old(stream.pos), stream.data, stream.pos)
    {
      assert columns[i] == SerialiserOf(codecs[i]);
      if nullFieldMap.nullFields[i] && ColumnFlags.OmitNulls(codecs[i].Flags()) {
        return Success(());
      }
      r := Columns.Write(codecs[i], stream, record[i]);
    }
  }

  class BulkRowReader {
    const stream: Stream
    /** The part of the stream the rows are read from. */
    const window: Window
    const nullFieldMap: NullFieldMap
    const codecs: seq<Columns.ValidCodec>
    /** Current: one entry per column, None standing for a null reference. */
    const current: array<Option<Columns.Value>>
    /** The serialisers of the columns, as the row format sees them. */
    ghost const columns: seq<ColumnSerialiser>

    /** The map has one flag per column and packs the nullable ones; the flags of the
     *  other columns are never set. */
    ghost predicate Valid()
      reads nullFieldMap.nullFields
    {
      SerialisersOf(columns, codecs) && nullFieldMap.Valid() && nullFieldMap.indexes == NullableIndexes(columns) &&
      nullFieldMap.nullFields.Length == |codecs| && current.Length == |codecs| &&
      forall i :: 0 <= i < |codecs| && i !in nullFieldMap.indexes ==> !nullFieldMap.nullFields[i]
    }

    constructor (stream: Stream, window: Window, codecs: seq<Columns.ValidCodec>)
      ensures Valid() && this.stream == stream && this.window == window && this.codecs == codecs && columns == Serialisers(codecs)
      ensures current[..] == Nothing(|codecs|)
      ensures fresh(current) && fresh(nullFieldMap) && fresh(nullFieldMap.nullFields) && fresh(nullFieldMap.buffer)
    {
      this.stream := stream;
      this.window := window;
      this.codecs := codecs;
      columns := Serialisers(codecs);
      SerialisersOfIs(Serialisers(codecs), codecs);
      current := new Option<Columns.Value>[|codecs|](_ => None);
      nullFieldMap := new NullFieldMap(Serialisers(codecs));
    }

    /** MoveNext: reads the row at the stream's position exactly as ParseRow says.
     *  False, with Current all null, where no row is left; true, with Current holding
     *  the row's fields, where one was read. */
    method MoveNext() returns (r: Result<bool>)
      requires Valid() && stream.Readable(window)
      modifies stream`pos, current, nullFieldMap.buffer, nullFieldMap.nullFields
      ensures Valid() && stream.Readable(window)
      ensures match ParseRow(columns, stream.data, window, old(stream.pos))
        case Success(p) =>
          r == Success(p.value.Some?) && stream.pos == p.next &&
          current[..] == if p.value.Some? then Present(p.value.value) else Nothing(|codecs|)
        case Failure(e) => r == Failure(e)
    {
      ghost var data, at := stream.data, stream.pos;
      forall i | 0 <= i < current.Length {
        current[i] := None;
      }
      assert current[..] == Nothing(|codecs|);
      var started := ReadPreamble();
      RowOfPreamble(columns, data, window, at);
      if started.Failure? {
        return Failure(started.error);
      }
      if !started.value {
        return Success(false);
      }
      var fields := ReadFields();
      if fields.Failure? {
        return Failure(fields.error);
      }
      r := Success(true);
    }

    /** MoveNext's loop: each column's field in turn, as ParseFields reads them with
     *  the flags the null map holds, into Current. */
    method ReadFields() returns (r: Result<()>)
      requires SerialisersOf(columns, codecs) && nullFieldMap.nullFields.Length == current.Length == |codecs| && stream.Readable(window)
      requires forall j :: 0 <= j < current.Length ==> current[j] == None
      modifies stream`pos, current
      ensures stream.Readable(window)
      ensures match ParseFields(columns, stream.data, window, nullFieldMap.nullFields[..], old(stream.pos))
        case Success(p) => r == Success(()) && stream.pos == p.next && current[..] == Present(p.value)
        case Failure(e) => r == Failure(e)
    {
      ghost var data, fieldsAt, nulls := stream.data, stream.pos, nullFieldMap.nullFields[..];
      ghost var read := ColumnReader(columns, data, window, nulls);
      ghost var values: seq<Columns.Value> := [];
      for i := 0 to |codecs|
        invariant stream.Readable(window) && |values| == i
        invariant Sequenced(read, fieldsAt, i) == Success(Parsed(values, stream.pos))
        invariant forall j :: 0 <= j < i ==> current[j] == Some(values[j])
        invariant forall j :: i <= j < |codecs| ==> current[j] == None
      {
        var v := ReadNext(i, read, fieldsAt, values);
        if v.Failure? {
          SequencedFails(read, fieldsAt, i + 1, |codecs|);
          return Failure(v.error);
        }
        current[i] := Some(v.value);
        values := values + [v.value];
      }
      assert current[..] == Present(values);
      r := Success(());
    }

    /** One turn of ReadFields: field `i` read where the fields before it ended. */
    method ReadNext(i: nat, ghost read: (nat, nat) -> Result<Parsed<Columns.Value>>, ghost fieldsAt: nat,
                    ghost values: seq<Columns.Value>) returns (v: Result<Columns.Value>)
      requires SerialisersOf(columns, codecs) && i < |codecs| == nullFieldMap.nullFields.Length && stream.Readable(window)
      requires read == ColumnReader(columns, stream.data, window, nullFieldMap.nullFields[..])
      requires Sequenced(read, fieldsAt, i) == Success(Parsed(values, stream.pos))
      modifies stream`pos
      ensures stream.Readable(window)
      ensures v.Success? ==> Sequenced(read, fieldsAt, i + 1) == Success(Parsed(values + [v.value], stream.pos))
      ensures v.Failure? ==> Sequenced(read, fieldsAt, i + 1) == Failure(v.error)
    {
      ghost var pos := stream.pos;
      v := ReadColumn(i);
      SequencedNext(read, fieldsAt, i, Parsed(values, pos),
                    ParseColumn(columns[i], stream.data, window, pos, nullFieldMap.nullFields[i]));
    }

    /** MoveNext up to its loop: the padding, the marker, the null map and the
     *  second padding, as ParsePreamble reads them; on a row, the flags it leaves
     *  are the ones ParsePreamble gives. */
    method ReadPreamble() returns (r: Result<bool>)
      requires Valid() && stream.Readable(window)
      modifies stream`pos, nullFieldMap.buffer, nullFieldMap.nullFields
      ensures Valid() && stream.Readable(window)
      ensures match ParsePreamble(columns, stream.data, window, old(stream.pos))
        case Success(p) =>
          r == Success(p.value.Some?) && stream.pos == p.next && (p.value.Some? ==> nullFieldMap.nullFields[..] == p.value.value)
        case Failure(e) => r == Failure(e)
    {
      ghost var data, at := stream.data, stream.pos;
      var aligned := TryAlignRead(stream, window, 4);
      if !aligned.value || IsEndOfStreamAt(window, stream.pos) {
        return Success(false);
      }
      ghost var markerAt := stream.pos;
      var marker := ReadByte(stream, window);
      if marker.value != TypeIds.RowHeader {
        PreambleBadMarker(columns, data, window, at, markerAt);
        return Failure(InvalidData);
      }
      ghost var bitmapAt := stream.pos;
      ghost var flags := nullFieldMap.nullFields[..];
      var m := nullFieldMap.Read(stream, window);
      if m.Failure? {
        PreambleBitmapFails(columns, data, window, at, markerAt, bitmapAt);
        return Failure(m.error);
      }
      ghost var bitmap, padAt := nullFieldMap.buffer[..], stream.pos;
      IncreasingIsDistinct(nullFieldMap.indexes);
      UnpackedOverClearFlags(flags, bitmap, nullFieldMap.indexes);
      var fieldsStart := AlignRead(stream, window, 4);
      PreambleAfterBitmap(columns, data, window, at, markerAt, bitmapAt, bitmap, padAt);
      if fieldsStart.Failure? {
        return Failure(fieldsStart.error);
      }
      r := Success(true);
    }

    /** ReadColumn: a null its column leaves out reads nothing; otherwise the
     *  serialiser's Read, with a null coming back as null whatever it read. */
    method ReadColumn(i: nat) returns (r: Result<Columns.Value>)
      requires SerialisersOf(columns, codecs) && i < |codecs| == nullFieldMap.nullFields.Length && stream.Readable(window)
      modifies stream`pos
      ensures stream.Readable(window)
      ensures Agrees(r, ParseColumn(columns[i], stream.data, window, old(stream.pos), nullFieldMap.nullFields[i]), stream.pos)
    {
      assert columns[i] == SerialiserOf(codecs[i]);
      if nullFieldMap.nullFields[i] && ColumnFlags.OmitNulls(codecs[i].Flags()) {
        return Success(Columns.DBNull);
      }
      var value := Columns.Read(codecs[i], stream, window, nullFieldMap.nullFields[i]);
      if value.Failure? {
        return Failure(value.error);
      }
      return Success(if nullFieldMap.nullFields[i] then Columns.DBNull else value.value);
    }
  }

  /** Current after Array.Clear: every entry null. */
  function Nothing(n: nat): (r: seq<Option<Columns.Value>>)
    ensures |r| == n && forall i :: 0 <= i < n ==> r[i] == None
  {
    if n == 0 then [] else Nothing(n - 1) + [None]
  }

  /** Current holding a row's fields. */
  function Present(values: seq<Columns.Value>): (r: seq<Option<Columns.Value>>)
    ensures |r| == |values| && forall i :: 0 <= i < |values| ==> r[i] == Some(values[i])
  {
    if |values| == 0 then [] else Present(values[..|values| - 1]) + [Some(values[|values| - 1])]
  }

  /** The writer's steps up to the fields, each where the one before ended, write
   *  what EmitPreamble gives. */
  lemma {:induction false} PreambleWritten(columns: seq<ColumnSerialiser>, record: seq<Columns.Value>, canWrite: bool,
                                           before: seq<byte>, at: nat, pad: seq<byte>, d1: seq<byte>, p1: nat,
                                           d2: seq<byte>, p2: nat, bitmap: seq<byte>, d3: seq<byte>, p3: nat,
                                           pad2: seq<byte>, d4: seq<byte>, p4: nat)
    returns (preamble: seq<byte>)
    requires |columns| <= |record| && bitmap == RowBitmap(columns, record)
    requires EmitAlignment(at, canWrite, 4) == Success(pad) && d1 == Splice(before, at, pad) && p1 == at + |pad|
    requires d2 == Splice(d1, p1, [TypeIds.RowHeader]) && p2 == p1 + 1
    requires d3 == Splice(d2, p2, bitmap) && p3 == p2 + |bitmap|
    requires EmitAlignment(p3, canWrite, 4) == Success(pad2) && d4 == Splice(d3, p3, pad2) && p4 == p3 + |pad2|
    ensures EmitPreamble(columns, at, canWrite, record) == Success(preamble)
    ensures d4 == Splice(before, at, preamble) && p4 == at + |preamble|
  {
    SpliceAfter(before, at, pad, p1, [TypeIds.RowHeader]);
    SpliceAfter(before, at, pad + [TypeIds.RowHeader], p2, bitmap);
    SpliceAfter(before, at, pad + [TypeIds.RowHeader] + bitmap, p3, pad2);
    preamble := pad + [TypeIds.RowHeader] + bitmap + pad2;
  }

  /** Laid, one field further, with that field written where the others ended. */
  lemma {:induction false} LaidNext(field: (nat, nat) -> Result<seq<byte>>, pos: nat, i: nat, prefix: seq<byte>, q: nat, last: Result<seq<byte>>)
    requires Laid(field, pos, i) == Success(prefix) && q == pos + |prefix| && field(i, q) == last
    ensures Laid(field, pos, i + 1) == if last.Success? then Success(prefix + last.value) else Failure(last.error)
  {
  }

  /** EmitRow fails where EmitPreamble does. */
  lemma {:induction false} RowPreambleFails(columns: seq<ColumnSerialiser>, at: nat, canWrite: bool, record: seq<Columns.Value>)
    requires EmitPreamble(columns, at, canWrite, record).Failure?
    ensures EmitRow(columns, at, canWrite, record) == Failure(EmitPreamble(columns, at, canWrite, record).error)
  {
  }

  /** EmitRow from its preamble and what its fields give. */
  lemma {:induction false} RowWritten(columns: seq<ColumnSerialiser>, at: nat, canWrite: bool, record: seq<Columns.Value>,
                                      preamble: seq<byte>, fieldsAt: nat, fields: Result<seq<byte>>)
    requires EmitPreamble(columns, at, canWrite, record) == Success(preamble) && fieldsAt == at + |preamble|
    requires EmitFields(columns, fieldsAt, canWrite, record) == fields
    ensures EmitRow(columns, at, canWrite, record) == if fields.Success? then Success(preamble + fields.value) else Failure(fields.error)
  {
  }

  /** Sequenced, one field further, with that field read where the others ended. */
  lemma {:induction false} SequencedNext(field: (nat, nat) -> Result<Parsed<Columns.Value>>, pos: nat, i: nat,
                                         prefix: Parsed<seq<Columns.Value>>, last: Result<Parsed<Columns.Value>>)
    requires Sequenced(field, pos, i) == Success(prefix) && field(i, prefix.next) == last
    ensures Sequenced(field, pos, i + 1) == match last
      case Success(l) => Success(Parsed(prefix.value + [l.value], l.next))
      case Failure(e) => Failure(e)
  {
  }

  /** ParseRow from what ParsePreamble gives. */
  lemma {:induction false} RowOfPreamble(columns: seq<ColumnSerialiser>, data: seq<byte>, w: Window, at: nat)
    requires Within(data, w, at)
    ensures ParseRow(columns, data, w, at) == match ParsePreamble(columns, data, w, at)
      case Failure(e) => Failure(e)
      case Success(p) =>
        if p.value.None? then Success(Parsed(None, p.next))
        else match ParseFields(columns, data, w, p.value.value, p.next)
          case Success(f) => Success(Parsed(Some(f.value), f.next))
          case Failure(e) => Failure(e)
  {
  }

  /** A first byte other than the marker, where aligning found one, is invalid data. */
  lemma {:induction false} PreambleBadMarker(columns: seq<ColumnSerialiser>, data: seq<byte>, w: Window, at: nat, markerAt: nat)
    requires Within(data, w, at)
    requires TryAlignReadAt(w, at, 4).value.value && TryAlignReadAt(w, at, 4).value.next == markerAt
    requires !IsEndOfStreamAt(w, markerAt) && data[markerAt] != TypeIds.RowHeader
    ensures ParsePreamble(columns, data, w, at) == Failure(InvalidData)
  {
  }

  /** A bitmap that cannot be read after the marker fails the preamble. */
  lemma {:induction false} PreambleBitmapFails(columns: seq<ColumnSerialiser>, data: seq<byte>, w: Window, at: nat, markerAt: nat, bitmapAt: nat)
    requires Within(data, w, at)
    requires TryAlignReadAt(w, at, 4).value.value && TryAlignReadAt(w, at, 4).value.next == markerAt
    requires !IsEndOfStreamAt(w, markerAt) && data[markerAt] == TypeIds.RowHeader && bitmapAt == markerAt + 1
    requires ParseFixed(data, w, bitmapAt, BitmapLength(columns), 1).Failure?
    ensures ParsePreamble(columns, data, w, at) == Failure(ParseFixed(data, w, bitmapAt, BitmapLength(columns), 1).error)
  {
  }

  /** After the bitmap, the preamble is the second padding: a failure to align, or
   *  the flags the bitmap gives and the aligned position. */
  lemma {:induction false} PreambleAfterBitmap(columns: seq<ColumnSerialiser>, data: seq<byte>, w: Window, at: nat, markerAt: nat, bitmapAt: nat,
                                               bitmap: seq<byte>, padAt: nat)
    requires Within(data, w, at)
    requires TryAlignReadAt(w, at, 4).value.value && TryAlignReadAt(w, at, 4).value.next == markerAt
    requires !IsEndOfStreamAt(w, markerAt) && data[markerAt] == TypeIds.RowHeader && bitmapAt == markerAt + 1
    requires ParseFixed(data, w, bitmapAt, BitmapLength(columns), 1).Success?
    requires ParseFixed(data, w, bitmapAt, BitmapLength(columns), 1).value.value == bitmap
    requires ParseFixed(data, w, bitmapAt, BitmapLength(columns), 1).value.next == padAt
    ensures |bitmap| == BitmapLength(columns) && w.start <= padAt
    ensures ParsePreamble(columns, data, w, at) == match AlignReadAt(w, padAt, 4)
      case Success(p) => Success(Parsed(Some(BitmapFlags(columns, bitmap)), p.next))
      case Failure(e) => Failure(e)
  {
  }
}
