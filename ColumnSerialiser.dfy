/** IColumnSerialiser as the row code and the null map see it: a column's flags,
 *  its Write at a position and its Read through a window, together with what it
 *  promises about a value written and then read back.  The row format depends on
 *  nothing else, so the rows are modelled over any sound serialiser, and every
 *  column serialiser of the library is one. */
module ColumnSerialisers {
  import opened Wrappers
  import opened Bytes
  import opened Streams
  import opened Serialiser
  import ColumnFlags
  import opened Columns

  /** `write(pos, canWrite, v)`: the bytes Write puts at absolute position `pos`;
   *  `read(data, w, pos, isNull)`: what Read decodes from `pos` through `w`, given
   *  the field's null flag; `readBack(v, isNull)`: what a written `v` reads back
   *  as, None for a value whose reading the serialiser does not promise. */
  datatype ColumnSerialiser = ColumnSerialiser(
    flags: ColumnFlags.Flags,
    write: (nat, bool, Value) -> Result<seq<byte>>,
    read: (seq<byte>, Window, nat, bool) -> Result<Parsed<Value>>,
    readBack: (Value, bool) -> Option<Value>)

  /** `bytes` lie at `pos` in `data`, inside the window. */
  predicate LaidAt(data: seq<byte>, w: Window, pos: nat, bytes: seq<byte>)
  {
    pos + |bytes| <= w.End() <= |data| && data[pos..pos + |bytes|] == bytes
  }

  /** The serialiser keeps its promise: a value it accepts, written at `pos` and
   *  lying there in a window that starts on an 8-byte boundary, reads back from
   *  `pos` as `readBack` says, and the read ends where the write ended. */
  ghost predicate Sound(s: ColumnSerialiser)
  {
    forall data: seq<byte>, w: Window, pos: nat, canWrite: bool, v: Value, isNull: bool ::
      s.readBack(v, isNull).Some? && s.write(pos, canWrite, v).Success? && w.start % 8 == 0 && w.start <= pos &&
      LaidAt(data, w, pos, s.write(pos, canWrite, v).value) ==>
        s.read(data, w, pos, isNull) == Success(Parsed(s.readBack(v, isNull).value, pos + |s.write(pos, canWrite, v).value|))
  }

  /** The library's serialiser for a codec: Write and Read as the codec defines
   *  them.  A read never starts outside its window, so the guard on `read` is only
   *  there to make it total. */
  function SerialiserOf(c: ValidCodec): (r: ColumnSerialiser)
    ensures r.flags == c.Flags()
  {
    ColumnSerialiser(
      c.Flags(),
      (pos: nat, canWrite: bool, v: Value) => Emit(c, pos, canWrite, v),
      (data: seq<byte>, w: Window, pos: nat, isNull: bool) =>
        if Within(data, w, pos) then Parse(c, data, w, pos, isNull) else Failure(EndOfStream),
      (v: Value, isNull: bool) => if Roundtrips(c, v) then Some(ReadBack(c, v, isNull)) else None)
  }

  /** `columns` are the serialisers of `codecs`, in order.  The fact about each
   *  column comes into play only where its serialiser is named. */
  ghost predicate SerialisersOf(columns: seq<ColumnSerialiser>, codecs: seq<ValidCodec>)
  {
    |columns| == |codecs| &&
    forall i {:trigger SerialiserOf(codecs[i])} :: 0 <= i < |codecs| ==> columns[i] == SerialiserOf(codecs[i])
  }

  /** Every column serialiser of the library is sound. */
  lemma SerialiserOfSound(c: ValidCodec)
    ensures Sound(SerialiserOf(c))
  {
    SerialiserOfEach(SerialiserOf(c), c);
  }

  /** The same, for a serialiser known to be the codec's only through a fact that
   *  the proof brings in case by case. */
  lemma SerialiserOfEach(s: ColumnSerialiser, c: ValidCodec)
    requires SerialisersOf([s], [c])
    ensures Sound(s)
  {
    forall data: seq<byte>, w: Window, pos: nat, canWrite: bool, v: Value, isNull: bool |
      s.readBack(v, isNull).Some? && s.write(pos, canWrite, v).Success? && w.start % 8 == 0 && w.start <= pos &&
      LaidAt(data, w, pos, s.write(pos, canWrite, v).value)
      ensures s.read(data, w, pos, isNull) == Success(Parsed(s.readBack(v, isNull).value, pos + |s.write(pos, canWrite, v).value|))
    {
      assert [s][0] == SerialiserOf([c][0]);
      SerialiserOfReadsBack(c, s, data, w, pos, canWrite, v, isNull);
    }
  }

  /** One case of the above: the serialiser's functions are the codec's Emit, Parse
   *  and ReadBack, so the codec's round trip is the serialiser's. */
  lemma SerialiserOfReadsBack(c: ValidCodec, s: ColumnSerialiser, data: seq<byte>, w: Window, pos: nat, canWrite: bool, v: Value, isNull: bool)
    requires s == SerialiserOf(c)
    requires s.readBack(v, isNull).Some? && s.write(pos, canWrite, v).Success? && w.start % 8 == 0 && w.start <= pos
    requires LaidAt(data, w, pos, s.write(pos, canWrite, v).value)
    ensures s.read(data, w, pos, isNull) == Success(Parsed(s.readBack(v, isNull).value, pos + |s.write(pos, canWrite, v).value|))
  {
    assert s.read(data, w, pos, isNull) == Success(Parsed(s.readBack(v, isNull).value, pos + |s.write(pos, canWrite, v).value|)) by {
      SerialiserOfApplied(c, s, data, w, pos, canWrite, v, isNull);
      CodecReadsBack(c, data, w, pos, canWrite, v, isNull, s.write(pos, canWrite, v), s.read(data, w, pos, isNull), s.readBack(v, isNull));
    }
  }

  /** The codec's round trip, for the results of its three functions given by name. */
  lemma CodecReadsBack(c: ValidCodec, data: seq<byte>, w: Window, pos: nat, canWrite: bool, v: Value, isNull: bool,
                       written: Result<seq<byte>>, read: Result<Parsed<Value>>, readBack: Option<Value>)
    requires written == Emit(c, pos, canWrite, v) && written.Success? && w.start % 8 == 0 && w.start <= pos
    requires LaidAt(data, w, pos, written.value) && read == Parse(c, data, w, pos, isNull)
    requires readBack == (if Roundtrips(c, v) then Some(ReadBack(c, v, isNull)) else None) && readBack.Some?
    ensures read == Success(Parsed(readBack.value, pos + |written.value|))
  {
    assert Roundtrips(c, v) && readBack.value == ReadBack(c, v, isNull);
    RoundTrip(c, data, w, pos, canWrite, v, isNull);
  }

  /** The serialiser's three functions applied: the codec's Emit, Parse and
   *  ReadBack. */
  lemma SerialiserOfApplied(c: ValidCodec, s: ColumnSerialiser, data: seq<byte>, w: Window, pos: nat, canWrite: bool, v: Value, isNull: bool)
    requires s == SerialiserOf(c) && Within(data, w, pos)
    ensures s.write(pos, canWrite, v) == Emit(c, pos, canWrite, v)
    ensures s.read(data, w, pos, isNull) == Parse(c, data, w, pos, isNull)
    ensures s.readBack(v, isNull) == if Roundtrips(c, v) then Some(ReadBack(c, v, isNull)) else None
  {
  }

  /** The serialisers of a table's codecs, in order. */
  function Serialisers(codecs: seq<ValidCodec>): (r: seq<ColumnSerialiser>)
    ensures |r| == |codecs| && forall i :: 0 <= i < |codecs| ==> r[i] == SerialiserOf(codecs[i])
  {
    seq(|codecs|, i requires 0 <= i < |codecs| => SerialiserOf(codecs[i]))
  }

  lemma SerialisersOfIs(columns: seq<ColumnSerialiser>, codecs: seq<ValidCodec>)
    ensures SerialisersOf(columns, codecs) <==> columns == Serialisers(codecs)
  {
    if SerialisersOf(columns, codecs) {
      forall i | 0 <= i < |codecs|
        ensures columns[i] == Serialisers(codecs)[i]
      {
        assert columns[i] == SerialiserOf(codecs[i]);
      }
    }
  }

  /** Every serialiser in the list is sound. */
  ghost predicate AllSound(columns: seq<ColumnSerialiser>)
  {
    forall i :: 0 <= i < |columns| ==> Sound(columns[i])
  }

  lemma SerialisersSound(codecs: seq<ValidCodec>)
    ensures AllSound(Serialisers(codecs))
  {
    forall i | 0 <= i < |codecs|
      ensures Sound(Serialisers(codecs)[i])
    {
      SerialiserOfSound(codecs[i]);
    }
  }
}
