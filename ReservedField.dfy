/** ReservedField: room for a value whose content is known only later.  On
 *  construction it remembers the position and writes the default value there;
 *  writing the field later goes back, overwrites those bytes and returns to where
 *  the stream was.  The library's only such field is the 64-bit chunk length
 *  (ReservedField<long> with WriteInt64), which is the field modelled here. */
module ReservedFields {
  import opened Wrappers
  import opened Bytes
  import opened Streams
  import opened Serialiser

  /** The position of the reserved 8 bytes. */
  datatype ReservedField = ReservedField(mark: nat)

  /** The constructor: fails on a stream that cannot be written or sought.  The
   *  default value is written with WriteInt64 and so is subject to its alignment
   *  check. */
  method Reserve(s: Stream) returns (r: Result<ReservedField>)
    modifies s
    ensures r.Success? <==> s.canWrite && s.canSeek && old(s.pos) % 4 == 0
    ensures r.Failure? ==> r.error == (if !s.canWrite || !s.canSeek then Argument else InvalidOperation)
    ensures r.Failure? ==> s.data == old(s.data) && s.pos == old(s.pos)
    ensures r.Success? ==> r.value.mark == old(s.pos) && s.pos == old(s.pos) + 8
    ensures r.Success? ==> s.data == Splice(old(s.data), old(s.pos), Int64Bytes(0))
  {
    if !s.canWrite || !s.canSeek {
      return Failure(Argument);
    }
    var mark := s.pos;
    var written := WriteInt64(s, 0);
    if written.Failure? {
      return Failure(written.error);
    }
    return Success(ReservedField(mark));
  }

  /** Write: seek to the mark, write the value, seek back.  A write that throws
   *  leaves the stream at the mark. */
  method WriteReserved(s: Stream, field: ReservedField, value: int64) returns (r: Result<()>)
    modifies s
    ensures r.Success? <==> s.canSeek && s.canWrite && field.mark % 4 == 0
    ensures r.Failure? ==> r.error == (if !s.canSeek || field.mark % 4 == 0 then NotSupported else InvalidOperation)
    ensures !s.canSeek ==> s.pos == old(s.pos)
    ensures r.Failure? ==> s.data == old(s.data)
    ensures r.Failure? && s.canSeek ==> s.pos == field.mark
    ensures r.Success? ==> s.data == Splice(old(s.data), field.mark, Int64Bytes(value)) && s.pos == old(s.pos)
  {
    var currentPosition := s.pos;
    var sought := s.Seek(field.mark);
    if sought.Failure? {
      return Failure(sought.error);
    }
    var written := WriteInt64(s, value);
    if written.Failure? {
      return Failure(written.error);
    }
    r := s.Seek(currentPosition);
  }

  /** Writing a field back leaves every byte outside it and the stream's length as
   *  they were, and the field then reads as the value written. */
  lemma BackPatch(data: seq<byte>, field: ReservedField, value: int64)
    requires field.mark + 8 <= |data| && field.mark % 4 == 0
    ensures var patched := Splice(data, field.mark, Int64Bytes(value));
      |patched| == |data| &&
      (forall i :: 0 <= i < |data| && !(field.mark <= i < field.mark + 8) ==> patched[i] == data[i]) &&
      ParseInt64(patched, Window(0, |patched|), field.mark) == Success(Parsed(value, field.mark + 8))
  {
    var patched := Splice(data, field.mark, Int64Bytes(value));
    Int64RoundTrip(patched, Window(0, |patched|), field.mark, true, value);
  }
}
