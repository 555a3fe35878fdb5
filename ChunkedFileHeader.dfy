/** ChunkedFileHeaderSerialiser: the 8-byte header at the start of a chunked file,
 *  a 32-bit file type, the 16-bit format version 1 and 16 reserved bits, written
 *  and read at an 8-byte-aligned position of the whole stream. */
module ChunkedFileHeaders {
  import opened Wrappers
  import opened Bytes
  import opened Streams
  import opened Serialiser

  datatype ChunkedFileHeader = ChunkedFileHeader(fileTypeId: uint32, version: int16, headerSizeBytes: int32)

  const Version: int16 := 1
  const HeaderSizeBytes: int32 := 8

  /** The bytes WriteHeader puts down. */
  function EmitHeader(pos: nat, canWrite: bool, fileTypeId: uint32): (r: Result<seq<byte>>)
    ensures r.Success? <==> pos % 8 == 0 && canWrite
    ensures r.Failure? ==> r.error == if pos % 8 != 0 then InvalidOperation else NotSupported
    ensures r.Success? ==> |r.value| == HeaderSizeBytes as nat
    ensures r.Success? ==> r.value[..4] == UInt32Bytes(fileTypeId) && r.value[4..6] == Int16Bytes(Version) && r.value[6..] == [0, 0]
  {
    if pos % 8 != 0 then Failure(InvalidOperation)
    else if !canWrite then Failure(NotSupported)
    else Success(UInt32Bytes(fileTypeId) + Int16Bytes(Version) + UInt16Bytes(0))
  }

  /** What ReadHeader reads at `pos` of the whole stream; the reserved 16 bits are
   *  read and ignored. */
  function ParseHeader(data: seq<byte>, pos: nat): (r: Result<Parsed<ChunkedFileHeader>>)
    ensures pos % 8 != 0 ==> r == Failure(InvalidOperation)
    ensures pos % 8 == 0 ==> (r.Success? <==> pos + 8 <= |data|)
    ensures r.Failure? && pos % 8 == 0 ==> r.error == EndOfStream
    ensures r.Success? ==> r.value.next == pos + 8 && r.value.value.headerSizeBytes == HeaderSizeBytes
  {
    var w := Window(0, |data|);
    if pos % 8 != 0 then Failure(InvalidOperation)
    else
      HeaderFieldsAligned(pos);
      var fileTypeId :- ParseUInt32(data, w, pos);
      var version :- ParseInt16(data, w, fileTypeId.next);
      var reserved :- ParseUInt16(data, w, version.next);
      Success(Parsed(ChunkedFileHeader(fileTypeId.value, version.value, HeaderSizeBytes), reserved.next))
  }

  /** Each field of a header at an 8-aligned position is aligned to its width. */
  lemma HeaderFieldsAligned(at: nat)
    requires at % 8 == 0
    ensures CheckAlignment(at, 4).Success? && CheckAlignment(at + 4, 2).Success? && CheckAlignment(at + 6, 2).Success?
  {
    var k := at / 8;
    DivModUnique(at, 4, 2 * k, 0);
    DivModUnique(at + 4, 2, 4 * k + 2, 0);
    DivModUnique(at + 6, 2, 4 * k + 3, 0);
  }

  /** WriteHeader: the header written, and its description. */
  method WriteHeader(s: Stream, fileTypeId: uint32) returns (r: Result<ChunkedFileHeader>)
    modifies s
    ensures r.Success? <==> EmitHeader(old(s.pos), s.canWrite, fileTypeId).Success?
    ensures r.Failure? ==> r.error == EmitHeader(old(s.pos), s.canWrite, fileTypeId).error
    ensures r.Failure? ==> s.data == old(s.data) && s.pos == old(s.pos)
    ensures r.Success? ==> r.value == ChunkedFileHeader(fileTypeId, Version, HeaderSizeBytes)
    ensures r.Success? ==> s.data == Splice(old(s.data), old(s.pos), EmitHeader(old(s.pos), s.canWrite, fileTypeId).value)
    ensures r.Success? ==> s.pos == old(s.pos) + 8
  {
    if s.pos % 8 != 0 {
      return Failure(InvalidOperation);
    }
    if !s.canWrite {
      return Failure(NotSupported);
    }
    ghost var before, at := s.data, s.pos;
    ghost var typeBytes, versionBytes, reservedBytes := UInt32Bytes(fileTypeId), Int16Bytes(Version), UInt16Bytes(0);
    HeaderFieldsAligned(at);
    var _ := WriteUInt32(s, fileTypeId);
    assert s.pos == at + 4;
    var _ := WriteInt16(s, Version);
    SpliceAfter(before, at, typeBytes, at + 4, versionBytes);
    assert s.pos == at + 6;
    var _ := WriteUInt16(s, 0);
    SpliceAfter(before, at, typeBytes + versionBytes, at + 6, reservedBytes);
    return Success(ChunkedFileHeader(fileTypeId, Version, HeaderSizeBytes));
  }

  /** ReadHeader. */
  method ReadHeader(s: Stream) returns (r: Result<ChunkedFileHeader>)
    modifies s`pos
    ensures Agrees(r, ParseHeader(s.data, old(s.pos)), s.pos)
    ensures old(s.pos) % 8 != 0 ==> s.pos == old(s.pos)
  {
    if s.pos % 8 != 0 {
      return Failure(InvalidOperation);
    }
    var w := s.Whole();
    var fileTypeId := ReadUInt32(s, w);
    if fileTypeId.Failure? {
      return Failure(fileTypeId.error);
    }
    var version := ReadInt16(s, w);
    if version.Failure? {
      return Failure(version.error);
    }
    var reserved := ReadUInt16(s, w);
    if reserved.Failure? {
      return Failure(reserved.error);
    }
    return Success(ChunkedFileHeader(fileTypeId.value, version.value, HeaderSizeBytes));
  }

  /** Reading a header back where one was written gives the file type and
   *  version 1, and moves past the 8 bytes. */
  lemma HeaderRoundTrip(data: seq<byte>, at: nat, fileTypeId: uint32)
    requires EmitHeader(at, true, fileTypeId).Success?
    requires at + 8 <= |data| && data[at..at + 8] == EmitHeader(at, true, fileTypeId).value
    ensures ParseHeader(data, at) == Success(Parsed(ChunkedFileHeader(fileTypeId, Version, HeaderSizeBytes), at + 8))
  {
    var w := Window(0, |data|);
    var typeBytes, versionBytes, reservedBytes := UInt32Bytes(fileTypeId), Int16Bytes(Version), UInt16Bytes(0);
    SliceOfParts(data, at, typeBytes, versionBytes, reservedBytes);
    HeaderFieldsAligned(at);
    UInt32RoundTrip(data, w, at, true, fileTypeId);
    Int16RoundTrip(data, w, at + 4, true, Version);
    UInt16RoundTrip(data, w, at + 6, true, 0);
  }
}
