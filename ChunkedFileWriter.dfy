/** ChunkedFileWriter: writes a stream as a sequence of chunks.  Each chunk starts
 *  on an 8-byte boundary with a 16-byte header (32-bit type, 32 zero bits, 64-bit
 *  length of the data that follows) and its length is written back when the
 *  chunk is closed.  At most one chunk is open at a time. */
module ChunkedFileWriters {
  import opened Wrappers
  import opened Bytes
  import opened Streams
  import opened Serialiser
  import opened ReservedFields

  const ChunkHeaderSizeBytes: nat := 16

  /** A chunk header with the given type and data length. */
  function ChunkHeaderBytes(typeId: uint32, length: int64): (r: seq<byte>)
    ensures |r| == ChunkHeaderSizeBytes
  {
    UInt32Bytes(typeId) + UInt32Bytes(0) + Int64Bytes(length)
  }

  /** The zero bytes that bring `pos` to a multiple of 8. */
  function ChunkPadding(pos: nat): (r: seq<byte>)
    ensures |r| < 8 && (pos + |r|) % 8 == 0
    ensures forall i :: 0 <= i < |r| ==> r[i] == 0
  {
    Zeros(AlignmentAdjustment(pos, 8).value)
  }

  /** Everything BeginChunk writes at `pos`: the padding, then a header whose
   *  length is still zero. */
  function EmitChunkStart(pos: nat, typeId: uint32): (r: seq<byte>)
    ensures |r| == |ChunkPadding(pos)| + ChunkHeaderSizeBytes
  {
    ChunkPadding(pos) + ChunkHeaderBytes(typeId, 0)
  }

  /** The header starts on an 8-byte boundary and the chunk's data 16 bytes after
   *  it, so also on one; the header is the type, a zero word and a zero length. */
  lemma ChunkStartLayout(pos: nat, typeId: uint32)
    ensures var start := pos + |ChunkPadding(pos)|;
      start % 8 == 0 && (start + ChunkHeaderSizeBytes) % 8 == 0 && start < pos + 8
    ensures var bytes := EmitChunkStart(pos, typeId);
      var pad := |ChunkPadding(pos)|;
      (forall i :: 0 <= i < pad ==> bytes[i] == 0) && bytes[pad..] == ChunkHeaderBytes(typeId, 0) &&
      bytes[pad..pad + 4] == UInt32Bytes(typeId) && bytes[pad + 4..pad + 8] == [0, 0, 0, 0] &&
      bytes[pad + 8..] == Int64Bytes(0)
  {
    var pad := |ChunkPadding(pos)|;
    var bytes := EmitChunkStart(pos, typeId);
    PowValues();
    assert UInt32Bytes(0) == [0, 0, 0, 0];
    assert bytes[pad..] == ChunkHeaderBytes(typeId, 0);
    assert bytes[pad..][..4] == bytes[pad..pad + 4];
    assert bytes[pad..][4..8] == bytes[pad + 4..pad + 8];
    assert bytes[pad..][8..] == bytes[pad + 8..];
  }

  /** Writing the length back over a header with a zero length gives the header
   *  with that length. */
  lemma PatchedHeader(data: seq<byte>, start: nat, typeId: uint32, length: int64)
    requires start + ChunkHeaderSizeBytes <= |data| && data[start..start + 16] == ChunkHeaderBytes(typeId, 0)
    ensures Splice(data, start + 8, Int64Bytes(length))[start..start + 16] == ChunkHeaderBytes(typeId, length)
  {
    var patched := Splice(data, start + 8, Int64Bytes(length));
    forall i | start <= i < start + 8
      ensures patched[i] == ChunkHeaderBytes(typeId, length)[i - start]
    {
      assert patched[i] == data[i] == data[start..start + 16][i - start];
    }
    assert patched[start..start + 16] == ChunkHeaderBytes(typeId, length);
  }

  /** A whole chunk at `pos` once it is closed: the padding, the header with the
   *  data's length, then the data. */
  function ChunkImage(pos: nat, typeId: uint32, body: seq<byte>): (r: seq<byte>)
    requires |body| < 0x8000_0000_0000_0000
    ensures |r| == |ChunkPadding(pos)| + ChunkHeaderSizeBytes + |body|
  {
    ChunkPadding(pos) + ChunkHeaderBytes(typeId, |body|) + body
  }

  /** Beginning a chunk at `at`, writing its data from `dataStart` and closing it,
   *  which writes the length at `lengthAt`, 8 bytes before the data, leaves the
   *  chunk's image at `at`. */
  lemma ChunkClosed(before: seq<byte>, at: nat, typeId: uint32, body: seq<byte>, dataStart: nat, lengthAt: nat)
    requires |body| < 0x8000_0000_0000_0000
    requires dataStart == at + |EmitChunkStart(at, typeId)| && lengthAt + 8 == dataStart
    ensures Splice(Splice(Splice(before, at, EmitChunkStart(at, typeId)), dataStart, body), lengthAt, Int64Bytes(|body|))
      == Splice(before, at, ChunkImage(at, typeId, body))
  {
    var a, start, image := ChunkParts(at, typeId, body);
    SpliceBackPatch(before, at, a, Int64Bytes(0), body, Int64Bytes(|body|), start, image, dataStart, lengthAt);
  }

  /** The chunk start and the chunk image share everything before the length. */
  lemma ChunkParts(at: nat, typeId: uint32, body: seq<byte>) returns (a: seq<byte>, start: seq<byte>, image: seq<byte>)
    requires |body| < 0x8000_0000_0000_0000
    ensures start == EmitChunkStart(at, typeId) && image == ChunkImage(at, typeId, body)
    ensures start == a + Int64Bytes(0) && image == a + Int64Bytes(|body|) + body
    ensures |a| + 8 == |start|
  {
    a := ChunkPadding(at) + (UInt32Bytes(typeId) + UInt32Bytes(0));
    start, image := EmitChunkStart(at, typeId), ChunkImage(at, typeId, body);
    assert start == a + Int64Bytes(0);
    assert image == a + Int64Bytes(|body|) + body;
  }

  lemma EightAligned(p: nat)
    requires p % 8 == 0
    ensures p % 4 == 0 && (p + 4) % 4 == 0 && (p + 8) % 4 == 0 && (p + 16) % 8 == 0
    ensures CheckAlignment(p, 4).Success? && CheckAlignment(p + 4, 4).Success? && CheckAlignment(p + 8, 4).Success?
  {
    var k := p / 8;
    DivModUnique(p, 4, 2 * k, 0);
    DivModUnique(p + 4, 4, 2 * k + 1, 0);
    DivModUnique(p + 8, 4, 2 * k + 2, 0);
    DivModUnique(p + 16, 8, k + 2, 0);
  }

  class ChunkedFileWriter {
    const stream: Stream
    /** The chunk still open, if any. */
    var current: Option<ChunkWriter>

    /** The writer over a stream that `Open` has checked. */
    constructor (stream: Stream)
      requires stream.canWrite && stream.canSeek
      ensures this.stream == stream && current == None && Valid()
    {
      this.stream := stream;
      current := None;
    }

    ghost predicate Valid()
      reads this
    {
      stream.canWrite && stream.canSeek &&
      (current.Some? ==> current.value.parent == this && current.value.Valid())
    }

    /** BeginChunk: refused while a chunk is open; otherwise pads to 8 and writes
     *  the new chunk's header, and the new chunk becomes the open one. */
    method BeginChunk(typeId: uint32) returns (r: Result<ChunkWriter>)
      requires Valid()
      modifies this`current, stream
      ensures Valid()
      ensures r.Failure? <==> old(current).Some?
      ensures r.Failure? ==> r.error == InvalidOperation && current == old(current)
      ensures r.Failure? ==> stream.data == old(stream.data) && stream.pos == old(stream.pos)
      ensures r.Success? ==> fresh(r.value) && current == Some(r.value) && r.value.parent == this && r.value.typeId == typeId
      ensures r.Success? ==> stream.data == Splice(old(stream.data), old(stream.pos), EmitChunkStart(old(stream.pos), typeId))
      ensures r.Success? ==> stream.pos == r.value.dataStart == old(stream.pos) + |EmitChunkStart(old(stream.pos), typeId)|
    {
      if current.Some? {
        return Failure(InvalidOperation);
      }
      ghost var before, at := stream.data, stream.pos;
      ghost var pad := ChunkPadding(at);
      ChunkStartLayout(at, typeId);
      ghost var start := at + |pad|;
      assert EmitAlignment(at, true, 8) == Success(pad);
      var aligned := AlignWrite(stream, 8);
      ghost var padded := stream.data;
      assert stream.pos == start && padded == Splice(before, at, pad);
      var chunk := StartChunk(this, typeId);
      assert chunk.Success?;
      SpliceAfter(before, at, pad, start, ChunkHeaderBytes(typeId, 0));
      current := Some(chunk.value);
      return chunk;
    }

    /** EndChunk: closes the chunk if it is the open one, and otherwise does
     *  nothing (a debug-build assertion). */
    method EndChunk(chunk: ChunkWriter)
      modifies this`current
      ensures current == if old(current) == Some(chunk) then None else old(current)
    {
      if current != Some(chunk) {
        return;
      }
      current := None;
    }
  }

  /** The constructor: refuses a stream that cannot be written or sought. */
  method Open(stream: Stream) returns (r: Result<ChunkedFileWriter>)
    ensures r.Success? <==> stream.canWrite && stream.canSeek
    ensures r.Failure? ==> r.error == Argument
    ensures r.Success? ==> fresh(r.value) && r.value.stream == stream && r.value.current == None && r.value.Valid()
  {
    if !stream.canWrite || !stream.canSeek {
      return Failure(Argument);
    }
    var writer := new ChunkedFileWriter(stream);
    return Success(writer);
  }

  class ChunkWriter {
    const parent: ChunkedFileWriter
    const typeId: uint32
    /** The reserved length field of the header. */
    const lengthField: ReservedField
    /** Where the chunk's data starts: just after the header. */
    const dataStart: nat

    constructor (parent: ChunkedFileWriter, typeId: uint32, lengthField: ReservedField, dataStart: nat)
      ensures this.parent == parent && this.typeId == typeId
      ensures this.lengthField == lengthField && this.dataStart == dataStart
    {
      this.parent, this.typeId := parent, typeId;
      this.lengthField, this.dataStart := lengthField, dataStart;
    }

    /** The stream can be written and sought, and the length field is the last 8
     *  bytes of a header that starts on an 8-byte boundary. */
    predicate Valid()
    {
      parent.stream.canWrite && parent.stream.canSeek &&
      dataStart % 8 == 0 && lengthField.mark + 8 == dataStart
    }

    /** Dispose: writes the data's length, position less data start, back into the
     *  header without moving, then closes the chunk. */
    method Dispose()
      requires Valid()
      requires -0x8000_0000_0000_0000 <= parent.stream.pos - dataStart < 0x8000_0000_0000_0000
      modifies parent.stream, parent`current
      ensures parent.stream.data == Splice(old(parent.stream.data), lengthField.mark, Int64Bytes(old(parent.stream.pos) - dataStart))
      ensures parent.stream.pos == old(parent.stream.pos)
      ensures parent.current == if old(parent.current) == Some(this) then None else old(parent.current)
      ensures old(parent.Valid()) ==> parent.Valid()
    {
      EightAligned(dataStart - 8);
      var _ := WriteReserved(parent.stream, lengthField, parent.stream.pos - dataStart);
      parent.EndChunk(this);
    }
  }

  /** The ChunkWriter constructor: refuses an unaligned position, then writes the
   *  type, a zero word and the reserved length. */
  method StartChunk(parent: ChunkedFileWriter, typeId: uint32) returns (r: Result<ChunkWriter>)
    requires parent.stream.canWrite && parent.stream.canSeek
    modifies parent.stream
    ensures r.Success? <==> old(parent.stream.pos) % 8 == 0
    ensures r.Failure? ==> r.error == Argument
    ensures r.Failure? ==> parent.stream.data == old(parent.stream.data) && parent.stream.pos == old(parent.stream.pos)
    ensures r.Success? ==> fresh(r.value) && r.value.Valid() && r.value.parent == parent && r.value.typeId == typeId
    ensures r.Success? ==> parent.stream.data == Splice(old(parent.stream.data), old(parent.stream.pos), ChunkHeaderBytes(typeId, 0))
    ensures r.Success? ==> parent.stream.pos == r.value.dataStart == old(parent.stream.pos) + ChunkHeaderSizeBytes
  {
    var s := parent.stream;
    if s.pos % 8 != 0 {
      return Failure(Argument);
    }
    var lengthField := WriteChunkHeader(s, typeId);
    var chunk := new ChunkWriter(parent, typeId, lengthField, s.pos);
    return Success(chunk);
  }

  /** StartChunk's three writes at an 8-byte boundary: the header with a zero
   *  length, whose last 8 bytes are the reserved length field. */
  method WriteChunkHeader(s: Stream, typeId: uint32) returns (lengthField: ReservedField)
    requires s.canWrite && s.canSeek && s.pos % 8 == 0
    modifies s
    ensures s.data == Splice(old(s.data), old(s.pos), ChunkHeaderBytes(typeId, 0))
    ensures s.pos == old(s.pos) + ChunkHeaderSizeBytes && lengthField.mark + 8 == s.pos
  {
    ghost var before, at := s.data, s.pos;
    EightAligned(at);
    var _ := WriteUInt32(s, typeId);
    var _ := WriteUInt32(s, 0);
    SpliceAfter(before, at, UInt32Bytes(typeId), at + 4, UInt32Bytes(0));
    ghost var d2, p2 := s.data, s.pos;
    assert d2 == Splice(before, at, UInt32Bytes(typeId) + UInt32Bytes(0)) && p2 == at + 8;
    var reserved := Reserve(s);
    lengthField := reserved.value;
    SpliceAfter(before, at, UInt32Bytes(typeId) + UInt32Bytes(0), p2, Int64Bytes(0));
  }

  /** The bytes of a chunk of type 1 holding the one byte 0x42 at the start of a
   *  stream: its 16-byte header, length 1, then that byte. */
  const OneByteChunkImage: seq<byte> := [1, 0, 0, 0] + [0, 0, 0, 0] + [1, 0, 0, 0, 0, 0, 0, 0] + [0x42]

  /** Writing a chunk of one byte to an empty stream gives its header, with
   *  length 1, then that byte, with no padding after the last chunk, and leaves
   *  the position after them. */
  method OneByteChunk(typeId: uint32, b: byte) returns (bytes: seq<byte>, position: nat)
    ensures bytes == ChunkHeaderBytes(typeId, 1) + [b]
    ensures position == 17
  {
    var s := new Stream([], true, true);
    var writer := new ChunkedFileWriter(s);
    var chunk := writer.BeginChunk(typeId);
    ChunkAtStreamStart(typeId);
    ghost var begun := s.data;
    var _ := s.Write([b]);
    ghost var filled := s.data;
    chunk.value.Dispose();
    OneByteChunkBytes(typeId, b, begun, filled, s.data);
    return s.data, s.pos;
  }

  /** At the start of a stream a chunk needs no padding. */
  lemma ChunkAtStreamStart(typeId: uint32)
    ensures EmitChunkStart(0, typeId) == ChunkHeaderBytes(typeId, 0)
  {
    assert ChunkPadding(0) == [];
  }

  lemma OneByteChunkBytes(typeId: uint32, b: byte, begun: seq<byte>, filled: seq<byte>, patched: seq<byte>)
    requires begun == Splice([], 0, ChunkHeaderBytes(typeId, 0))
    requires filled == Splice(begun, 16, [b])
    requires patched == Splice(filled, 8, Int64Bytes(17 - 16))
    ensures patched == ChunkHeaderBytes(typeId, 1) + [b]
  {
    var empty, full := ChunkHeaderBytes(typeId, 0), ChunkHeaderBytes(typeId, 1);
    assert filled == empty + [b];
    assert patched == filled[..8] + Int64Bytes(1) + filled[16..];
    assert filled[..8] == empty[..8] == full[..8];
  }

  /** The chunk of type 1 holding the byte 0x42 is exactly the 17 bytes of the
   *  image. */
  lemma OneByteChunkImageIs()
    ensures ChunkHeaderBytes(1, 1) + [0x42] == OneByteChunkImage
  {
    SmallEncodings();
  }

  lemma SmallEncodings()
    ensures UInt32Bytes(1) == [1, 0, 0, 0] && UInt32Bytes(0) == [0, 0, 0, 0]
    ensures Int64Bytes(0) == [0, 0, 0, 0, 0, 0, 0, 0] && Int64Bytes(1) == [1, 0, 0, 0, 0, 0, 0, 0]
  {
    PowValues();
  }
}
