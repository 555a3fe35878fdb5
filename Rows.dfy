/** BulkRowWriter and BulkRowReader: a row is zero padding to 4, the row marker, the
 *  null bitmap of the nullable columns, zero padding to 4, then each column's field
 *  in serialiser order, except that a null in an absent-when-null column has no
 *  field at all.
 *
 *  `EmitRow` is what a write puts down at an absolute position, `ParseRow` what a
 *  read through a window decodes, `ExpectedRow` independently what comes back, and
 *  `RowRoundTrip` proves they agree for any sound serialisers. */
module Rows {
  import opened Wrappers
  import opened Bytes
  import opened Streams
  import opened Serialiser
  import opened BitSets
  import ColumnFlags
  import opened Columns
  import opened ColumnSerialisers
  import opened NullFieldMaps
  import TypeIds

  /** IDataRecord.IsDBNull for the first `n` fields. */
  function NullFlags(record: seq<Value>, n: nat): (r: seq<bool>)
    requires n <= |record|
    ensures |r| == n && forall i :: 0 <= i < n ==> r[i] == record[i].DBNull?
  {
    if n == 0 then [] else NullFlags(record, n - 1) + [record[n - 1].DBNull?]
  }

  /** A null whose column leaves it out. */
  predicate Omitted(c: ColumnSerialiser, isNull: bool)
  {
    isNull && ColumnFlags.OmitNulls(c.flags)
  }

  // ---------------------------------------------------------------- fields in a row

  /** Fields laid one after the other from `pos`: `field(i, at)` is field `i`
   *  written at `at`, where the field before it ended. */
  function Laid(field: (nat, nat) -> Result<seq<byte>>, pos: nat, n: nat): Result<seq<byte>>
  {
    if n == 0 then Success([])
    else
      var prefix :- Laid(field, pos, n - 1);
      var last :- field(n - 1, pos + |prefix|);
      Success(prefix + last)
  }

  /** Fields read one after the other from `pos`: `field(i, at)` reads field `i`
   *  from `at`, where the field before it ended. */
  function Sequenced(field: (nat, nat) -> Result<Parsed<Value>>, pos: nat, n: nat): (r: Result<Parsed<seq<Value>>>)
    ensures r.Success? ==> |r.value.value| == n
  {
    if n == 0 then Success(Parsed([], pos))
    else
      var prefix :- Sequenced(field, pos, n - 1);
      var last :- field(n - 1, prefix.next);
      Success(Parsed(prefix.value + [last.value], last.next))
  }

  /** Bytes laid as `a + b` lay `a` and then `b`. */
  lemma {:induction false} LaidSplit(data: seq<byte>, w: Window, at: nat, a: seq<byte>, b: seq<byte>)
    requires LaidAt(data, w, at, a + b)
    ensures LaidAt(data, w, at, a) && LaidAt(data, w, at + |a|, b)
  {
    assert data[at..at + |a|] == (a + b)[..|a|] by {
      assert data[at..at + |a|] == data[at..at + |a + b|][..|a|];
    }
    assert data[at + |a|..at + |a| + |b|] == (a + b)[|a|..] by {
      assert data[at + |a|..at + |a| + |b|] == data[at..at + |a + b|][|a|..];
    }
  }

  /** Laid, one field further. */
  lemma {:induction false} LaidStep(field: (nat, nat) -> Result<seq<byte>>, pos: nat, n: nat)
    requires 0 < n && Laid(field, pos, n).Success?
    ensures var prefix := Laid(field, pos, n - 1);
      prefix.Success? && field(n - 1, pos + |prefix.value|).Success? &&
      Laid(field, pos, n).value == prefix.value + field(n - 1, pos + |prefix.value|).value
  {
  }

  /** Sequenced, one field further. */
  lemma {:induction false} SequencedStep(field: (nat, nat) -> Result<Parsed<Value>>, pos: nat, n: nat, prefix: Parsed<seq<Value>>, last: Parsed<Value>)
    requires 0 < n && Sequenced(field, pos, n - 1) == Success(prefix) && field(n - 1, prefix.next) == Success(last)
    ensures Sequenced(field, pos, n) == Success(Parsed(prefix.value + [last.value], last.next))
  {
  }

  /** Once a field fails to be written, so does every longer run of fields, with the
   *  same error. */
  lemma {:induction false} LaidFails(field: (nat, nat) -> Result<seq<byte>>, pos: nat, k: nat, n: nat)
    requires k <= n && Laid(field, pos, k).Failure?
    ensures Laid(field, pos, n) == Laid(field, pos, k)
  {
    if k < n {
      LaidFails(field, pos, k, n - 1);
    }
  }

  /** Once a field fails to be read, so does every longer run of fields, with the
   *  same error. */
  lemma {:induction false} SequencedFails(field: (nat, nat) -> Result<Parsed<Value>>, pos: nat, k: nat, n: nat)
    requires k <= n && Sequenced(field, pos, k).Failure?
    ensures Sequenced(field, pos, n) == Sequenced(field, pos, k)
  {
    if k < n {
      SequencedFails(field, pos, k, n - 1);
    }
  }

  /** Field `i` (below `n`), written by `write` anywhere from `at` and lying in the
   *  window, reads back through `read` as `expected[i]` and ends where it was written. */
  ghost predicate FieldsReadBack(write: (nat, nat) -> Result<seq<byte>>, read: (nat, nat) -> Result<Parsed<Value>>,
                                 expected: seq<Value>, data: seq<byte>, w: Window, at: nat, n: nat)
  {
    n <= |expected| &&
    forall i: nat, pos: nat {:trigger read(i, pos)} ::
      i < n && at <= pos && write(i, pos).Success? && LaidAt(data, w, pos, write(i, pos).value) ==>
        read(i, pos) == Success(Parsed(expected[i], pos + |write(i, pos).value|))
  }

  /** Fields that each read back as `expected` wherever they are written read back
   *  as `expected` when laid one after the other. */
  lemma {:induction false} SequencedRoundTrip(write: (nat, nat) -> Result<seq<byte>>, read: (nat, nat) -> Result<Parsed<Value>>,
                                              expected: seq<Value>, data: seq<byte>, w: Window, at: nat, n: nat)
    requires Laid(write, at, n).Success? && LaidAt(data, w, at, Laid(write, at, n).value)
    requires FieldsReadBack(write, read, expected, data, w, at, n)
    ensures Sequenced(read, at, n) == Success(Parsed(expected[..n], at + |Laid(write, at, n).value|))
  {
    if n > 0 {
      LaidStep(write, at, n);
      var prefix := Laid(write, at, n - 1).value;
      var last := write(n - 1, at + |prefix|).value;
      LaidSplit(data, w, at, prefix, last);
      SequencedRoundTrip(write, read, expected, data, w, at, n - 1);
      SequencedStep(read, at, n, Parsed(expected[..n - 1], at + |prefix|), Parsed(expected[n - 1], at + |prefix| + |last|));
      assert expected[..n] == expected[..n - 1] + [expected[n - 1]];
    }
  }

  /** All the fields, laid as `bytes`, read back as `expected`. */
  lemma {:induction false} SequencedReadsBack(write: (nat, nat) -> Result<seq<byte>>, read: (nat, nat) -> Result<Parsed<Value>>,
                           expected: seq<Value>, data: seq<byte>, w: Window, at: nat, n: nat, bytes: seq<byte>)
    requires n == |expected|
    requires Laid(write, at, n) == Success(bytes) && LaidAt(data, w, at, bytes)
    requires FieldsReadBack(write, read, expected, data, w, at, n)
    ensures Sequenced(read, at, n) == Success(Parsed(expected, at + |bytes|))
  {
    SequencedRoundTrip(write, read, expected, data, w, at, n);
    assert expected[..n] == expected;
  }

  // ---------------------------------------------------------------- writing

  /** WriteColumn: nothing for an omitted null, the serialiser's Write otherwise. */
  function EmitColumn(c: ColumnSerialiser, pos: nat, canWrite: bool, v: Value): Result<seq<byte>>
  {
    if Omitted(c, v.DBNull?) then Success([]) else c.write(pos, canWrite, v)
  }

  /** Field `i` of the record, written under column `i`: the writer's loop never
   *  reaches past the columns. */
  function ColumnWriter(columns: seq<ColumnSerialiser>, canWrite: bool, record: seq<Value>): (nat, nat) -> Result<seq<byte>>
  {
    (i: nat, pos: nat) =>
      if i < |columns| && i < |record| then EmitColumn(columns[i], pos, canWrite, record[i]) else Failure(IndexOutOfRange)
  }

  /** The size of a row's null bitmap: one bit per nullable column, in whole bytes. */
  function BitmapLength(columns: seq<ColumnSerialiser>): (r: nat)
    ensures |NullableIndexes(columns)| <= 8 * r
  {
    PackedByteCountOf(NullableIndexes(columns))
  }

  /** The null bitmap written for a record: the IsDBNull flags of its fields, packed
   *  by the nullable columns. */
  function RowBitmap(columns: seq<ColumnSerialiser>, record: seq<Value>): (r: seq<byte>)
    requires |columns| <= |record|
    ensures |r| == BitmapLength(columns)
  {
    Bitmap(NullFlags(record, |columns|), NullableIndexes(columns))
  }

  /** Everything before the fields: padding, the marker, the bitmap of the record's
   *  nulls, padding.  A record with fewer fields than there are columns fails when
   *  its nulls are looked up.  Once the stream has taken the first padding it takes
   *  the rest. */
  function EmitPreamble(columns: seq<ColumnSerialiser>, pos: nat, canWrite: bool, record: seq<Value>): Result<seq<byte>>
  {
    var pad :- EmitAlignment(pos, canWrite, 4);
    if |record| < |columns| then Failure(IndexOutOfRange)
    else
      var bitmap := RowBitmap(columns, record);
      var pad2 := EmitAlignment(pos + |pad| + 1 + |bitmap|, canWrite, 4).value;
      Success(pad + [TypeIds.RowHeader] + bitmap + pad2)
  }

  /** The writer's WriteColumn loop: every field in column order from `pos`. */
  function EmitFields(columns: seq<ColumnSerialiser>, pos: nat, canWrite: bool, record: seq<Value>): Result<seq<byte>>
  {
    Laid(ColumnWriter(columns, canWrite, record), pos, |columns|)
  }

  /** BulkRowWriter.Write: the bytes of one row written at `pos` from `record`. */
  function EmitRow(columns: seq<ColumnSerialiser>, pos: nat, canWrite: bool, record: seq<Value>): Result<seq<byte>>
  {
    var preamble :- EmitPreamble(columns, pos, canWrite, record);
    var fields :- EmitFields(columns, pos + |preamble|, canWrite, record);
    Success(preamble + fields)
  }

  // ---------------------------------------------------------------- reading

  /** ReadColumn: an omitted null reads nothing; otherwise the serialiser reads its
   *  field, and a null comes back as DBNull whatever the serialiser made of it. */
  function ParseColumn(c: ColumnSerialiser, data: seq<byte>, w: Window, pos: nat, isNull: bool): (r: Result<Parsed<Value>>)
    ensures Omitted(c, isNull) ==> r == Success(Parsed(DBNull, pos))
    ensures r.Success? && isNull ==> r.value.value == DBNull
    ensures !Omitted(c, isNull) ==> (r.Success? <==> c.read(data, w, pos, isNull).Success?)
  {
    if Omitted(c, isNull) then Success(Parsed(DBNull, pos))
    else
      var v :- c.read(data, w, pos, isNull);
      Success(Parsed(if isNull then DBNull else v.value, v.next))
  }

  /** Field `i` of a row, read under column `i` with its null flag.  The reader's
   *  loop never reaches past the columns. */
  function ColumnReader(columns: seq<ColumnSerialiser>, data: seq<byte>, w: Window, nulls: seq<bool>): (nat, nat) -> Result<Parsed<Value>>
  {
    (i: nat, pos: nat) =>
      if i < |columns| && i < |nulls| then ParseColumn(columns[i], data, w, pos, nulls[i]) else Failure(IndexOutOfRange)
  }

  /** The flags NullFieldMap.Read leaves from a stored bitmap: a nullable column's
   *  bit, clear for the others. */
  function BitmapFlags(columns: seq<ColumnSerialiser>, bitmap: seq<byte>): (r: seq<bool>)
    requires |bitmap| == BitmapLength(columns)
    ensures |r| == |columns|
  {
    NullsFrom(bitmap, NullableIndexes(columns), |columns|)
  }

  /** BulkRowReader.MoveNext up to its loop: None (false) when aligning to 4 runs
   *  out of the window or leaves it at its end; a first byte other than the marker
   *  is invalid data; otherwise the bitmap and padding, leaving the flags of the
   *  columns.  The flags of columns that are not nullable are never stored, and stay
   *  clear. */
  function ParsePreamble(columns: seq<ColumnSerialiser>, data: seq<byte>, w: Window, pos: nat): (r: Result<Parsed<Option<seq<bool>>>>)
    requires Within(data, w, pos)
    ensures r.Success? && r.value.value.Some? ==> |r.value.value.value| == |columns|
  {
    var aligned := TryAlignReadAt(w, pos, 4).value;
    if !aligned.value || IsEndOfStreamAt(w, aligned.next) then Success(Parsed(None, aligned.next))
    else if data[aligned.next] != TypeIds.RowHeader then Failure(InvalidData)
    else
      var bitmap :- ParseFixed(data, w, aligned.next + 1, BitmapLength(columns), 1);
      var fieldsStart :- AlignReadAt(w, bitmap.next, 4);
      Success(Parsed(Some(BitmapFlags(columns, bitmap.value)), fieldsStart.next))
  }

  /** The reader's ReadColumn loop: every field in column order from `pos`, each
   *  with its null flag. */
  function ParseFields(columns: seq<ColumnSerialiser>, data: seq<byte>, w: Window, nulls: seq<bool>, pos: nat): (r: Result<Parsed<seq<Value>>>)
    ensures r.Success? ==> |r.value.value| == |columns|
  {
    Sequenced(ColumnReader(columns, data, w, nulls), pos, |columns|)
  }

  /** BulkRowReader.MoveNext: the preamble, then each column's field. */
  function ParseRow(columns: seq<ColumnSerialiser>, data: seq<byte>, w: Window, pos: nat): (r: Result<Parsed<Option<seq<Value>>>>)
    requires Within(data, w, pos)
    ensures r.Success? && r.value.value.Some? ==> |r.value.value.value| == |columns|
  {
    var preamble :- ParsePreamble(columns, data, w, pos);
    match preamble.value
    case None => Success(Parsed(None, preamble.next))
    case Some(nulls) =>
      var fields :- ParseFields(columns, data, w, nulls, preamble.next);
      Success(Parsed(Some(fields.value), fields.next))
  }

  // ---------------------------------------------------------------- what comes back

  /** The null flag the bitmap gives a field: set for a null in a nullable column. */
  predicate FieldFlag(c: ColumnSerialiser, v: Value)
  {
    v.DBNull? && ColumnFlags.IsNullable(c.flags)
  }

  /** What a column reads back as: DBNull for a null the bitmap keeps, otherwise what
   *  its serialiser reads back, the placeholder's reading for a null it does not
   *  keep (and the value itself where the serialiser promises nothing). */
  function ExpectedField(c: ColumnSerialiser, v: Value): Value
  {
    if FieldFlag(c, v) then DBNull
    else match c.readBack(v, false)
      case Some(r) => r
      case None => v
  }

  function ExpectedRow(columns: seq<ColumnSerialiser>, record: seq<Value>): (r: seq<Value>)
    requires |columns| <= |record|
    ensures |r| == |columns| && forall i :: 0 <= i < |columns| ==> r[i] == ExpectedField(columns[i], record[i])
  {
    ExpectedFields(columns, record, |columns|)
  }

  /** The first `n` fields a row reads back as. */
  function ExpectedFields(columns: seq<ColumnSerialiser>, record: seq<Value>, n: nat): (r: seq<Value>)
    requires n <= |columns| <= |record|
    ensures |r| == n && forall i :: 0 <= i < n ==> r[i] == ExpectedField(columns[i], record[i])
  {
    if n == 0 then [] else ExpectedFields(columns, record, n - 1) + [ExpectedField(columns[n - 1], record[n - 1])]
  }

  /** Every field that is written has a reading its serialiser promises. */
  predicate RowRoundtrips(columns: seq<ColumnSerialiser>, record: seq<Value>)
  {
    forall i :: 0 <= i < |columns| && i < |record| && !Omitted(columns[i], record[i].DBNull?) ==>
      columns[i].readBack(record[i], FieldFlag(columns[i], record[i])).Some?
  }

  /** The reader's flags: the writer's for the nullable columns, clear for the others. */
  predicate NullsOf(columns: seq<ColumnSerialiser>, record: seq<Value>, nulls: seq<bool>)
  {
    |columns| <= |record| && |columns| <= |nulls| &&
    forall i :: 0 <= i < |columns| ==> nulls[i] == FieldFlag(columns[i], record[i])
  }

  /** One column reads back as expected, with the flag the bitmap gives it. */
  lemma {:induction false} ColumnRoundTrip(c: ColumnSerialiser, data: seq<byte>, w: Window, at: nat, canWrite: bool, v: Value, bytes: seq<byte>)
    requires Sound(c) && EmitColumn(c, at, canWrite, v) == Success(bytes)
    requires !Omitted(c, v.DBNull?) ==> c.readBack(v, FieldFlag(c, v)).Some?
    requires w.start % 8 == 0 && w.start <= at && LaidAt(data, w, at, bytes)
    ensures ParseColumn(c, data, w, at, FieldFlag(c, v)) == Success(Parsed(ExpectedField(c, v), at + |bytes|))
  {
    ColumnFlags.FlagMeanings(c.flags);
    var isNull := FieldFlag(c, v);
    if !Omitted(c, v.DBNull?) {
      assert c.read(data, w, at, isNull) == Success(Parsed(c.readBack(v, isNull).value, at + |bytes|));
    }
  }

  /** Every column, written anywhere after `at` in the window, reads back as
   *  expected with the flags the bitmap gives. */
  lemma {:induction false} ColumnsReadBack(columns: seq<ColumnSerialiser>, data: seq<byte>, w: Window, at: nat, canWrite: bool, record: seq<Value>, nulls: seq<bool>)
    requires AllSound(columns) && RowRoundtrips(columns, record) && NullsOf(columns, record, nulls)
    requires w.start % 8 == 0 && w.start <= at
    ensures FieldsReadBack(ColumnWriter(columns, canWrite, record), ColumnReader(columns, data, w, nulls), ExpectedRow(columns, record), data, w, at, |columns|)
  {
    var write, read := ColumnWriter(columns, canWrite, record), ColumnReader(columns, data, w, nulls);
    forall i: nat, pos: nat | i < |columns| && at <= pos && write(i, pos).Success? && LaidAt(data, w, pos, write(i, pos).value)
      ensures read(i, pos) == Success(Parsed(ExpectedRow(columns, record)[i], pos + |write(i, pos).value|))
    {
      ColumnRoundTrip(columns[i], data, w, pos, canWrite, record[i], write(i, pos).value);
    }
  }

  /** The flags the reader unpacks from the bitmap of the record's nulls. */
  lemma {:induction false} NullsRoundTrip(columns: seq<ColumnSerialiser>, record: seq<Value>)
    requires |columns| <= |record|
    ensures NullsOf(columns, record, BitmapFlags(columns, RowBitmap(columns, record)))
  {
    var indexes := NullableIndexes(columns);
    forall i | 0 <= i < |columns|
      ensures BitmapFlags(columns, RowBitmap(columns, record))[i] == FieldFlag(columns[i], record[i])
    {
      BitmapRoundTrip(NullFlags(record, |columns|), indexes, |columns|, i);
    }
  }

  /** The fields of a row `e` written at `at`, laid after its preamble, read back
   *  as expected with the flags the bitmap gives, up to the end of the row. */
  lemma {:induction false} FieldsRoundTrip(columns: seq<ColumnSerialiser>, data: seq<byte>, w: Window, at: nat, canWrite: bool, record: seq<Value>,
                                           nulls: seq<bool>, preamble: seq<byte>, fields: seq<byte>, e: seq<byte>)
    requires AllSound(columns) && RowRoundtrips(columns, record) && NullsOf(columns, record, nulls)
    requires w.start % 8 == 0 && w.start <= at && e == preamble + fields
    requires EmitFields(columns, at + |preamble|, canWrite, record) == Success(fields) && LaidAt(data, w, at + |preamble|, fields)
    ensures ParseFields(columns, data, w, nulls, at + |preamble|) == Success(Parsed(ExpectedRow(columns, record), at + |e|))
  {
    ColumnsReadBack(columns, data, w, at + |preamble|, canWrite, record, nulls);
    SequencedReadsBack(ColumnWriter(columns, canWrite, record), ColumnReader(columns, data, w, nulls), ExpectedRow(columns, record),
                       data, w, at + |preamble|, |columns|, fields);
  }

  /** The parts of a preamble `e` laid at `at`, each read as the reader reads it:
   *  aligning to 4 reaches the marker, the bitmap follows it, and aligning to 4
   *  again reaches the end of the preamble. */
  lemma {:induction false} PreambleLaid(data: seq<byte>, w: Window, at: nat, canWrite: bool,
                                        pad: seq<byte>, bitmap: seq<byte>, pad2: seq<byte>, e: seq<byte>)
    requires EmitAlignment(at, canWrite, 4) == Success(pad)
    requires EmitAlignment(at + |pad| + 1 + |bitmap|, canWrite, 4) == Success(pad2)
    requires e == pad + [TypeIds.RowHeader] + bitmap + pad2
    requires w.start % 8 == 0 && w.start <= at && LaidAt(data, w, at, e)
    ensures TryAlignReadAt(w, at, 4) == Success(Parsed(true, at + |pad|))
    ensures at + |pad| < w.End() && data[at + |pad|] == TypeIds.RowHeader
    ensures ParseFixed(data, w, at + |pad| + 1, |bitmap|, 1) == Success(Parsed(bitmap, at + |pad| + 1 + |bitmap|))
    ensures AlignReadAt(w, at + |pad| + 1 + |bitmap|, 4) == Success(Parsed((), at + |e|))
  {
    var head := pad + [TypeIds.RowHeader];
    LaidSplit(data, w, at, head + bitmap, pad2);
    LaidSplit(data, w, at, head, bitmap);
    PreambleMarkerLaid(data, w, at, canWrite, pad, head);
    PreambleBitmapLaid(data, w, at + |head|, canWrite, bitmap, pad2);
  }

  /** The first part of PreambleLaid: the padding and the marker after it. */
  lemma {:induction false} PreambleMarkerLaid(data: seq<byte>, w: Window, at: nat, canWrite: bool, pad: seq<byte>, head: seq<byte>)
    requires EmitAlignment(at, canWrite, 4) == Success(pad) && head == pad + [TypeIds.RowHeader]
    requires w.start % 8 == 0 && w.start <= at && LaidAt(data, w, at, head)
    ensures TryAlignReadAt(w, at, 4) == Success(Parsed(true, at + |pad|))
    ensures at + |pad| < w.End() && data[at + |pad|] == TypeIds.RowHeader
  {
    AlignmentRoundTrip(w, at, canWrite, 4);
    assert data[at..at + |head|][|pad|] == head[|pad|];
  }

  /** The second part of PreambleLaid: the bitmap and the padding after it. */
  lemma {:induction false} PreambleBitmapLaid(data: seq<byte>, w: Window, b: nat, canWrite: bool, bitmap: seq<byte>, pad2: seq<byte>)
    requires EmitAlignment(b + |bitmap|, canWrite, 4) == Success(pad2)
    requires w.start % 8 == 0 && w.start <= b && LaidAt(data, w, b, bitmap) && LaidAt(data, w, b + |bitmap|, pad2)
    ensures ParseFixed(data, w, b, |bitmap|, 1) == Success(Parsed(bitmap, b + |bitmap|))
    ensures AlignReadAt(w, b + |bitmap|, 4) == Success(Parsed((), b + |bitmap| + |pad2|))
  {
    FixedRoundTrip(data, w, b, true, bitmap, 1);
    AlignmentRoundTrip(w, b + |bitmap|, canWrite, 4);
  }

  /** ParsePreamble, once the padding, the marker, the bitmap and the second padding
   *  of a preamble `e` at `at` are known to read as they do. */
  lemma {:induction false} ParsePreambleOf(columns: seq<ColumnSerialiser>, data: seq<byte>, w: Window, at: nat,
                                           pad: seq<byte>, bitmap: seq<byte>, e: seq<byte>)
    requires Within(data, w, at) && |bitmap| == BitmapLength(columns)
    requires TryAlignReadAt(w, at, 4) == Success(Parsed(true, at + |pad|))
    requires at + |pad| < w.End() && data[at + |pad|] == TypeIds.RowHeader
    requires ParseFixed(data, w, at + |pad| + 1, |bitmap|, 1) == Success(Parsed(bitmap, at + |pad| + 1 + |bitmap|))
    requires AlignReadAt(w, at + |pad| + 1 + |bitmap|, 4) == Success(Parsed((), at + |e|))
    ensures ParsePreamble(columns, data, w, at) == Success(Parsed(Some(BitmapFlags(columns, bitmap)), at + |e|))
  {
  }

  /** A preamble laid at `at` reads back as the flags its bitmap gives, and leaves
   *  the read where the preamble ends; what the bitmap holds does not matter. */
  lemma {:induction false} PreambleReadsBack(columns: seq<ColumnSerialiser>, data: seq<byte>, w: Window, at: nat, canWrite: bool,
                                             pad: seq<byte>, bitmap: seq<byte>, pad2: seq<byte>, e: seq<byte>)
    requires |bitmap| == BitmapLength(columns)
    requires EmitAlignment(at, canWrite, 4) == Success(pad)
    requires EmitAlignment(at + |pad| + 1 + |bitmap|, canWrite, 4) == Success(pad2)
    requires e == pad + [TypeIds.RowHeader] + bitmap + pad2
    requires w.start % 8 == 0 && w.start <= at && LaidAt(data, w, at, e)
    ensures ParsePreamble(columns, data, w, at) == Success(Parsed(Some(BitmapFlags(columns, bitmap)), at + |e|))
  {
    PreambleLaid(data, w, at, canWrite, pad, bitmap, pad2, e);
    ParsePreambleOf(columns, data, w, at, pad, bitmap, e);
  }

  /** EmitRow, taken apart: the padding, the marker, the record's bitmap, the second
   *  padding, and the fields after that preamble. */
  lemma {:induction false} EmitRowParts(columns: seq<ColumnSerialiser>, at: nat, canWrite: bool, record: seq<Value>, e: seq<byte>)
    returns (pad: seq<byte>, bitmap: seq<byte>, pad2: seq<byte>, preamble: seq<byte>, fields: seq<byte>)
    requires EmitRow(columns, at, canWrite, record) == Success(e)
    ensures |columns| <= |record| && bitmap == RowBitmap(columns, record)
    ensures EmitAlignment(at, canWrite, 4) == Success(pad)
    ensures EmitAlignment(at + |pad| + 1 + |bitmap|, canWrite, 4) == Success(pad2)
    ensures preamble == pad + [TypeIds.RowHeader] + bitmap + pad2
    ensures EmitFields(columns, at + |preamble|, canWrite, record) == Success(fields)
    ensures e == preamble + fields
  {
    preamble := EmitPreamble(columns, at, canWrite, record).value;
    pad := EmitAlignment(at, canWrite, 4).value;
    bitmap := RowBitmap(columns, record);
    EmitAlignmentMeaning(at + |pad| + 1 + |bitmap|, canWrite, 4);
    pad2 := EmitAlignment(at + |pad| + 1 + |bitmap|, canWrite, 4).value;
    fields := EmitFields(columns, at + |preamble|, canWrite, record).value;
  }

  /** ParseRow, once the preamble and the fields are known to read as they do. */
  lemma {:induction false} ParseRowOf(columns: seq<ColumnSerialiser>, data: seq<byte>, w: Window, at: nat, nulls: seq<bool>,
                                      preamble: seq<byte>, fields: seq<Value>, e: seq<byte>)
    requires Within(data, w, at) && ParsePreamble(columns, data, w, at) == Success(Parsed(Some(nulls), at + |preamble|))
    requires ParseFields(columns, data, w, nulls, at + |preamble|) == Success(Parsed(fields, at + |e|))
    ensures ParseRow(columns, data, w, at) == Success(Parsed(Some(fields), at + |e|))
  {
  }

  /** A row `e` written at `at` starts with a preamble that reads back as the flags
   *  of the record's bitmap; the fields follow it. */
  lemma {:induction false} RowPreambleReadsBack(columns: seq<ColumnSerialiser>, data: seq<byte>, w: Window, at: nat, canWrite: bool,
                                                record: seq<Value>, e: seq<byte>)
    returns (bitmap: seq<byte>, preamble: seq<byte>, fields: seq<byte>)
    requires EmitRow(columns, at, canWrite, record) == Success(e)
    requires w.start % 8 == 0 && w.start <= at && LaidAt(data, w, at, e)
    ensures |columns| <= |record| && bitmap == RowBitmap(columns, record) && e == preamble + fields && Within(data, w, at)
    ensures ParsePreamble(columns, data, w, at) == Success(Parsed(Some(BitmapFlags(columns, bitmap)), at + |preamble|))
    ensures EmitFields(columns, at + |preamble|, canWrite, record) == Success(fields) && LaidAt(data, w, at + |preamble|, fields)
  {
    var pad, pad2;
    pad, bitmap, pad2, preamble, fields := EmitRowParts(columns, at, canWrite, record, e);
    LaidSplit(data, w, at, preamble, fields);
    PreambleReadsBack(columns, data, w, at, canWrite, pad, bitmap, pad2, preamble);
  }

  /** Once the preamble of a row `e` written for `record` has read back, the fields
   *  the writer laid after it read back as `ExpectedRow`. */
  lemma {:induction false} RowFieldsReadBack(columns: seq<ColumnSerialiser>, data: seq<byte>, w: Window, at: nat, canWrite: bool,
                                             record: seq<Value>, bitmap: seq<byte>, preamble: seq<byte>, fields: seq<byte>, e: seq<byte>)
    requires |columns| <= |record| && AllSound(columns) && RowRoundtrips(columns, record) && bitmap == RowBitmap(columns, record)
    requires Within(data, w, at) && ParsePreamble(columns, data, w, at) == Success(Parsed(Some(BitmapFlags(columns, bitmap)), at + |preamble|))
    requires EmitFields(columns, at + |preamble|, canWrite, record) == Success(fields) && e == preamble + fields
    requires w.start % 8 == 0 && w.start <= at && LaidAt(data, w, at + |preamble|, fields)
    ensures ParseRow(columns, data, w, at) == Success(Parsed(Some(ExpectedRow(columns, record)), at + |e|))
  {
    NullsRoundTrip(columns, record);
    FieldsRoundTrip(columns, data, w, at, canWrite, record, BitmapFlags(columns, bitmap), preamble, fields, e);
    ParseRowOf(columns, data, w, at, BitmapFlags(columns, bitmap), preamble, ExpectedRow(columns, record), e);
  }

  /** The headline property: a row `e` written at `at` by a writer with sound
   *  serialisers reads back, from `at`, through a window that starts on an 8-byte
   *  boundary, as `ExpectedRow`, and the read ends where the write ended. */
  lemma {:induction false} RowRoundTrip(columns: seq<ColumnSerialiser>, data: seq<byte>, w: Window, at: nat, canWrite: bool, record: seq<Value>, e: seq<byte>)
    requires AllSound(columns) && EmitRow(columns, at, canWrite, record) == Success(e) && RowRoundtrips(columns, record)
    requires w.start % 8 == 0 && w.start <= at && LaidAt(data, w, at, e)
    ensures ParseRow(columns, data, w, at) == Success(Parsed(Some(ExpectedRow(columns, record)), at + |e|))
  {
    var bitmap, preamble, fields := RowPreambleReadsBack(columns, data, w, at, canWrite, record, e);
    RowFieldsReadBack(columns, data, w, at, canWrite, record, bitmap, preamble, fields, e);
  }

  /** The same for the library's own column serialisers. */
  lemma {:induction false} CodecRowRoundTrip(codecs: seq<ValidCodec>, data: seq<byte>, w: Window, at: nat, canWrite: bool, record: seq<Value>, e: seq<byte>)
    requires EmitRow(Serialisers(codecs), at, canWrite, record) == Success(e) && RowRoundtrips(Serialisers(codecs), record)
    requires w.start % 8 == 0 && w.start <= at && LaidAt(data, w, at, e)
    ensures ParseRow(Serialisers(codecs), data, w, at) == Success(Parsed(Some(ExpectedRow(Serialisers(codecs), record)), at + |e|))
  {
    SerialisersSound(codecs);
    RowRoundTrip(Serialisers(codecs), data, w, at, canWrite, record, e);
  }
}
