/** ChunkedFileReader: walks the chunks of a chunked file, exposing each chunk's
 *  data as a window [data start, data start + length) over the stream, and
 *  returns to a chunk by a bookmark of its type and header offset.  Every
 *  position here is an absolute position of the stream. */
module ChunkedFileReaders {
  import opened Wrappers
  import opened Bytes
  import opened Streams
  import opened Serialiser
  import opened RangeStreams
  import ChunkedFileHeaders
  import ChunkedFileWriters

  const ChunkHeaderSizeBytes: nat := 16

  /** A chunk's header as read: where the header starts, where the data ends, the
   *  data's length (never negative once read) and the chunk's type. */
  datatype ChunkHeader = ChunkHeader(startOffset: nat, endOffset: nat, length: nat, typeId: uint32)

  /** ChunkBookmark: a chunk's type and the offset of its header. */
  datatype ChunkBookmark = ChunkBookmark(typeId: uint32, startOffset: int)

  /** The window through which a chunk's data is read. */
  function DataWindow(h: ChunkHeader): Window
  {
    Window(h.startOffset + ChunkHeaderSizeBytes, h.length)
  }

  /** The three fields of a chunk header as read: the type and the length; the
   *  word between them is read and ignored. */
  datatype HeaderFields = HeaderFields(typeId: uint32, length: int64)

  function ParseHeaderFields(data: seq<byte>, pos: nat): (r: Result<Parsed<HeaderFields>>)
    ensures r.Success? ==> r.value.next == pos + ChunkHeaderSizeBytes <= |data|
  {
    var w := Window(0, |data|);
    var typeId :- ParseUInt32(data, w, pos);
    var _ :- ParseUInt32(data, w, typeId.next);
    var length :- ParseInt64(data, w, typeId.next + 4);
    Success(Parsed(HeaderFields(typeId.value, length.value), length.next))
  }

  /** TryReadChunkHeader at `pos`: an unaligned position throws; fewer than 16
   *  bytes left on a seekable stream, or the end of an unseekable stream exactly at
   *  `pos`, is no header; otherwise the type, an ignored word and the length,
   *  which must not be negative.  Only the first read can fail with the position
   *  still at `pos`, and it does so exactly when nothing is left. */
  function ParseChunkHeader(data: seq<byte>, pos: nat, canSeek: bool): (r: Result<Option<Parsed<ChunkHeader>>>)
    ensures pos % 8 != 0 ==> r == Failure(InvalidOperation)
    ensures r.Success? && r.value.Some? ==> var h := r.value.value;
      h.next == pos + ChunkHeaderSizeBytes <= |data| && h.value.startOffset == pos &&
      h.value.endOffset == DataWindow(h.value).End()
  {
    if pos % 8 != 0 then Failure(InvalidOperation)
    else if canSeek && |data| - pos < ChunkHeaderSizeBytes then Success(None)
    else
      match ParseHeaderFields(data, pos)
      case Failure(e) =>
        if e == EndOfStream && Available(Window(0, |data|), pos) == 0 then Success(None) else Failure(e)
      case Success(fields) =>
        if fields.value.length < 0 then Failure(InvalidOperation)
        else Success(Some(Parsed(ChunkHeader(pos, fields.next + fields.value.length, fields.value.length, fields.value.typeId), fields.next)))
  }

  /** There is no header where fewer than 16 bytes are left on a seekable stream,
   *  or none at all; on an unseekable stream, a header cut short throws. */
  lemma NoHeaderAtEnd(data: seq<byte>, pos: nat, canSeek: bool)
    requires pos % 8 == 0 && |data| < pos + ChunkHeaderSizeBytes
    ensures |data| <= pos || canSeek ==> ParseChunkHeader(data, pos, canSeek) == Success(None)
    ensures pos < |data| && !canSeek ==> ParseChunkHeader(data, pos, canSeek) == Failure(EndOfStream)
  {
    FieldsCutShort(data, pos);
  }

  /** Fewer than 16 bytes cannot hold the fields of a header. */
  lemma FieldsCutShort(data: seq<byte>, pos: nat)
    requires pos % 8 == 0 && |data| < pos + ChunkHeaderSizeBytes
    ensures ParseHeaderFields(data, pos) == Failure(EndOfStream)
  {
    var w := Window(0, |data|);
    ChunkedFileWriters.EightAligned(pos);
    if pos + 4 <= |data| {
      assert ParseUInt32(data, w, pos).Success?;
      if pos + 8 <= |data| {
        assert ParseUInt32(data, w, pos + 4).Success?;
        assert ParseInt64(data, w, pos + 8) == Failure(EndOfStream);
      } else {
        assert ParseUInt32(data, w, pos + 4) == Failure(EndOfStream);
      }
    } else {
      assert ParseUInt32(data, w, pos) == Failure(EndOfStream);
    }
  }

  /** A header as ChunkedFileWriter leaves it, type and length, reads back as that
   *  chunk, unless the length is negative; and the Int64 is the chunk's length. */
  lemma {:induction false} WrittenHeaderReadsBack(data: seq<byte>, start: nat, canSeek: bool, typeId: uint32, length: int64)
    requires start % 8 == 0 && start + ChunkHeaderSizeBytes <= |data|
    requires data[start..start + 16] == ChunkedFileWriters.ChunkHeaderBytes(typeId, length)
    ensures ParseChunkHeader(data, start, canSeek) ==
      if length < 0 then Failure(InvalidOperation)
      else Success(Some(Parsed(ChunkHeader(start, start + 16 + length, length, typeId), start + 16)))
  {
    var w := Window(0, |data|);
    var typeBytes, zeroBytes, lengthBytes := UInt32Bytes(typeId), UInt32Bytes(0), Int64Bytes(length);
    SliceOfParts(data, start, typeBytes, zeroBytes, lengthBytes);
    ChunkedFileWriters.EightAligned(start);
    UInt32RoundTrip(data, w, start, true, typeId);
    UInt32RoundTrip(data, w, start + 4, true, 0);
    Int64RoundTrip(data, w, start + 8, true, length);
  }

  /** The result of TryReadChunkHeader as a method sees it, against what the
   *  function says. */
  predicate HeaderAgrees(r: Result<Option<ChunkHeader>>, f: Result<Option<Parsed<ChunkHeader>>>, before: nat, pos: nat)
  {
    match f
    case Failure(e) => r == Failure(e)
    case Success(None) => r == Success(None) && pos == before
    case Success(Some(p)) => r == Success(Some(p.value)) && pos == p.next
  }

  /** SeekReadForwards to `target` from `pos`, on a stream of `length` bytes: a seek
   *  when the stream can seek; otherwise a reading skip, which cannot go back and
   *  fails at the end of the stream. */
  function SeekForwardsAt(length: nat, canSeek: bool, pos: nat, target: nat): (r: Result<nat>)
    ensures r.Success? ==> r.value == target
  {
    if canSeek then Success(target)
    else if target < pos then Failure(NotSupported)
    else if target <= Max(pos, length) then Success(target)
    else Failure(EndOfStream)
  }

  /** The outcome of MoveNext: whether a chunk was found, the position, and the
   *  current chunk's header. */
  datatype Moved = Moved(found: bool, pos: nat, current: Option<ChunkHeader>)

  /** The second half of MoveNext: read a header at `pos` and make it current,
   *  which opens its window. */
  function ReadNext(data: seq<byte>, canSeek: bool, pos: nat, current: Option<ChunkHeader>): (r: Result<Moved>)
    ensures r.Success? && !r.value.found ==> r.value.pos == pos && r.value.current == current
    ensures r.Success? && r.value.found ==>
              r.value.current.Some? && r.value.current.value.startOffset == pos &&
              r.value.pos == pos + ChunkHeaderSizeBytes && DataWindow(r.value.current.value).End() <= |data| &&
              r.value.current.value.endOffset == DataWindow(r.value.current.value).End()
  {
    var header :- ParseChunkHeader(data, pos, canSeek);
    if header.None? then Success(Moved(false, pos, current))
    else
      var h := header.value.value;
      var _ :- ValidateRange(header.value.next, LengthOf(data, canSeek), h.startOffset + ChunkHeaderSizeBytes, h.length);
      Success(Moved(true, header.value.next, Some(h)))
  }

  /** MoveNext: from a current chunk, first skip to its end and align to 8,
   *  stopping if that runs out of stream; then read the next chunk. */
  function NextChunk(data: seq<byte>, canSeek: bool, pos: nat, current: Option<ChunkHeader>): (r: Result<Moved>)
    ensures r.Success? && !r.value.found ==> r.value.current == current
    ensures r.Success? && r.value.found ==>
              r.value.current.Some? && DataWindow(r.value.current.value).End() <= |data| &&
              r.value.current.value.endOffset == DataWindow(r.value.current.value).End() &&
              r.value.pos == DataWindow(r.value.current.value).start &&
              (current.Some? ==> r.value.current.value.startOffset >= current.value.endOffset)
  {
    if current.None? then ReadNext(data, canSeek, pos, current)
    else
      var aligned :- SkipChunk(data, canSeek, pos, current.value);
      if !aligned.value then Success(Moved(false, aligned.next, current))
      else ReadNext(data, canSeek, aligned.next, current)
  }

  /** The first half of MoveNext: to the end of the current chunk's data, then on
   *  to the next 8-aligned position, saying whether the stream reached it. */
  function SkipChunk(data: seq<byte>, canSeek: bool, pos: nat, h: ChunkHeader): (r: Result<Parsed<bool>>)
    ensures r.Success? && r.value.value ==> r.value.next % 8 == 0
    ensures r.Success? && !r.value.value ==> r.value.next == Max(h.endOffset, |data|)
    ensures r.Success? ==> r.value.next >= h.endOffset
  {
    var end :- SeekForwardsAt(|data|, canSeek, pos, h.endOffset);
    TryAlignReadMeaning(Window(0, |data|), end, 8);
    TryAlignReadAt(Window(0, |data|), end, 8)
  }

  /** A method's result, position and current chunk are those `f` describes. */
  predicate MovedAs(r: Result<bool>, f: Result<Moved>, pos: nat, current: Option<ChunkHeader>)
  {
    match f
    case Success(m) => r == Success(m.found) && pos == m.pos && current == m.current
    case Failure(e) => r == Failure(e)
  }

  /** SeekTo's reading: the header at the bookmark, which must be there and of the
   *  bookmark's type, with its window opened. */
  function SeekChunk(data: seq<byte>, bookmark: ChunkBookmark): (r: Result<Parsed<ChunkHeader>>)
    ensures r.Success? ==> r.value.value.startOffset == bookmark.startOffset && r.value.value.typeId == bookmark.typeId
    ensures r.Success? ==> r.value.next == bookmark.startOffset + ChunkHeaderSizeBytes && DataWindow(r.value.value).End() <= |data|
  {
    if bookmark.startOffset < 0 then Failure(ArgumentOutOfRange)
    else
      var header :- ParseChunkHeader(data, bookmark.startOffset, true);
      if header.None? then Failure(InvalidOperation)
      else if header.value.value.typeId != bookmark.typeId then Failure(InvalidOperation)
      else
        var h := header.value.value;
        var _ :- ValidateRange(header.value.next, Some(|data|), h.startOffset + ChunkHeaderSizeBytes, h.length);
        Success(header.value)
  }

  /** A written header whose data lies inside a seekable stream is read and made
   *  current, whatever chunk was current before. */
  lemma {:induction false} WrittenChunkFound(data: seq<byte>, start: nat, current: Option<ChunkHeader>, typeId: uint32, length: int64)
    requires start % 8 == 0 && start + ChunkHeaderSizeBytes <= |data|
    requires data[start..start + 16] == ChunkedFileWriters.ChunkHeaderBytes(typeId, length)
    requires 0 <= length && start + 16 + length <= |data|
    ensures ReadNext(data, true, start, current) ==
      Success(Moved(true, start + 16, Some(ChunkHeader(start, start + 16 + length, length, typeId))))
  {
    WrittenHeaderReadsBack(data, start, true, typeId, length);
  }

  /** The first chunk of a written file is found where its header is, with its
   *  data window, when it lies inside a seekable stream. */
  lemma {:induction false} FirstChunkFound(data: seq<byte>, start: nat, typeId: uint32, length: int64)
    requires start % 8 == 0 && start + ChunkHeaderSizeBytes <= |data|
    requires data[start..start + 16] == ChunkedFileWriters.ChunkHeaderBytes(typeId, length)
    requires 0 <= length && start + 16 + length <= |data|
    ensures NextChunk(data, true, start, None) ==
      Success(Moved(true, start + 16, Some(ChunkHeader(start, start + 16 + length, length, typeId))))
  {
    WrittenChunkFound(data, start, None, typeId, length);
  }

  /** On a seekable stream, the skip past a chunk whose data lies inside the stream
   *  reaches the next 8-aligned position when that is inside the stream too. */
  lemma {:induction false} SkipReachesNext(data: seq<byte>, pos: nat, h: ChunkHeader)
    requires h.endOffset + AlignmentAdjustment(h.endOffset, 8).value <= |data|
    ensures SkipChunk(data, true, pos, h) == Success(Parsed(true, h.endOffset + AlignmentAdjustment(h.endOffset, 8).value))
  {
    var end := h.endOffset;
    var next := end + AlignmentAdjustment(end, 8).value;
    assert SeekForwardsAt(|data|, true, pos, end) == Success(end);
    assert TryAlignReadAt(Window(0, |data|), end, 8) == Success(Parsed(true, next));
  }

  /** From a current chunk, MoveNext passes over the padding that follows its data
   *  and finds the chunk written at the next 8-aligned position, wherever the
   *  current chunk's data was left. */
  lemma {:induction false} NextChunkFound(data: seq<byte>, pos: nat, h: ChunkHeader, typeId: uint32, length: int64)
    requires var next := h.endOffset + AlignmentAdjustment(h.endOffset, 8).value;
      next + ChunkHeaderSizeBytes <= |data| &&
      data[next..next + 16] == ChunkedFileWriters.ChunkHeaderBytes(typeId, length) &&
      0 <= length && next + 16 + length <= |data|
    ensures var next := h.endOffset + AlignmentAdjustment(h.endOffset, 8).value;
      NextChunk(data, true, pos, Some(h)) ==
        Success(Moved(true, next + 16, Some(ChunkHeader(next, next + 16 + length, length, typeId))))
  {
    var next := h.endOffset + AlignmentAdjustment(h.endOffset, 8).value;
    SkipReachesNext(data, pos, h);
    WrittenChunkFound(data, next, Some(h), typeId, length);
  }

  /** The last chunk a writer leaves ends the stream: MoveNext then finds nothing,
   *  stays at the end, and keeps the chunk current. */
  lemma {:induction false} LastChunkEnds(data: seq<byte>, pos: nat, h: ChunkHeader)
    requires h.endOffset == |data|
    ensures NextChunk(data, true, pos, Some(h)) == Success(Moved(false, |data|, Some(h)))
  {
    var e := h.endOffset;
    var adjustment := AlignmentAdjustment(e, 8).value;
    if adjustment == 0 {
      NoHeaderAtEnd(data, e, true);
    }
  }

  /** On a seekable stream, once MoveNext has said false it says false again, from
   *  where it left the stream and with the same current chunk. */
  lemma {:induction false} FalseMoveRepeats(data: seq<byte>, pos: nat, current: Option<ChunkHeader>)
    requires NextChunk(data, true, pos, current).Success? && !NextChunk(data, true, pos, current).value.found
    ensures var m := NextChunk(data, true, pos, current).value;
      NextChunk(data, true, m.pos, m.current) == Success(m)
  {
  }

  /** A header whose data would run past the end of a seekable stream is refused
   *  by the window's range check. */
  lemma {:induction false} LengthPastEndRefused(data: seq<byte>, start: nat, typeId: uint32, length: int64)
    requires start % 8 == 0 && start + ChunkHeaderSizeBytes <= |data|
    requires data[start..start + 16] == ChunkedFileWriters.ChunkHeaderBytes(typeId, length)
    requires 0 <= length && start + 16 + length > |data|
    ensures NextChunk(data, true, start, None) == Failure(ArgumentOutOfRange)
  {
    WrittenHeaderReadsBack(data, start, true, typeId, length);
  }

  /** On an unseekable stream no chunk is ever made current: its window needs the
   *  stream's Length, which such a stream does not have. */
  lemma {:induction false} UnseekableFindsNothing(data: seq<byte>, pos: nat, current: Option<ChunkHeader>)
    ensures NextChunk(data, false, pos, current).Success? ==> !NextChunk(data, false, pos, current).value.found
    ensures ReadNext(data, false, pos, current).Success? ==> !ReadNext(data, false, pos, current).value.found
  {
  }

  /** A bookmark taken from a chunk MoveNext found leads SeekTo back to the same
   *  header and position; a bookmark of another type is refused. */
  lemma {:induction false} BookmarkReturns(data: seq<byte>, pos: nat, current: Option<ChunkHeader>, typeId: uint32)
    requires ReadNext(data, true, pos, current).Success? && ReadNext(data, true, pos, current).value.found
    ensures var h := ReadNext(data, true, pos, current).value.current.value;
      SeekChunk(data, ChunkBookmark(h.typeId, h.startOffset)) == Success(Parsed(h, pos + ChunkHeaderSizeBytes))
    ensures var h := ReadNext(data, true, pos, current).value.current.value;
      typeId != h.typeId ==> SeekChunk(data, ChunkBookmark(typeId, h.startOffset)) == Failure(InvalidOperation)
  {
  }

  class ChunkReader {
    const header: ChunkHeader
    /** The chunk's data, a RangeStream over the file's stream. */
    const range: RangeStream

    constructor (header: ChunkHeader, range: RangeStream)
      ensures this.header == header && this.range == range
    {
      this.header, this.range := header, range;
    }

    function TypeId(): uint32
    {
      header.typeId
    }

    /** GetBookmark: the chunk's type and the offset of its header. */
    function GetBookmark(): (b: ChunkBookmark)
      ensures b.typeId == TypeId() && b.startOffset == header.startOffset
    {
      ChunkBookmark(header.typeId, header.startOffset)
    }

    /** Invalidate: disposes the chunk's window. */
    method Invalidate()
      modifies range`open
      ensures !range.open
    {
      range.Dispose();
    }
  }

  class ChunkedFileReader {
    const stream: Stream
    const header: ChunkedFileHeaders.ChunkedFileHeader
    var current: Option<ChunkReader>

    /** A reader positioned at the first chunk, after the file header. */
    constructor (stream: Stream, header: ChunkedFileHeaders.ChunkedFileHeader)
      ensures this.stream == stream && this.header == header && current == None && Valid()
    {
      this.stream, this.header := stream, header;
      current := None;
    }

    /** The current chunk's window is its data window over this reader's stream,
     *  and lies inside the stream. */
    ghost predicate Valid()
      reads this, stream`data
    {
      current.Some? ==>
        current.value.range.stream == stream &&
        current.value.range.window == DataWindow(current.value.header) &&
        DataWindow(current.value.header).End() <= |stream.data| &&
        current.value.header.endOffset == DataWindow(current.value.header).End()
    }

    /** The current chunk's header. */
    function Current(): Option<ChunkHeader>
      reads this
    {
      if current.Some? then Some(current.value.header) else None
    }

    /** The current chunk's window, the one object besides the stream a move can
     *  change. */
    ghost function Ranges(): set<RangeStream>
      reads this
    {
      if current.Some? then {current.value.range} else {}
    }

    method TryReadChunkHeader() returns (r: Result<Option<ChunkHeader>>)
      modifies stream`pos
      ensures HeaderAgrees(r, ParseChunkHeader(stream.data, old(stream.pos), stream.canSeek), old(stream.pos), stream.pos)
    {
      if stream.pos % 8 != 0 {
        return Failure(InvalidOperation);
      }
      if stream.canSeek && |stream.data| - stream.pos < ChunkHeaderSizeBytes {
        return Success(None);
      }
      var startOffset := stream.pos;
      var fields := ReadHeaderFields();
      if fields.Failure? {
        if fields.error == EndOfStream && stream.pos == startOffset {
          return Success(None);
        }
        return Failure(fields.error);
      }
      if fields.value.length < 0 {
        return Failure(InvalidOperation);
      }
      return Success(Some(ChunkHeader(startOffset, stream.pos + fields.value.length, fields.value.length, fields.value.typeId)));
    }

    /** The three reads of TryReadChunkHeader.  On a failure the position is still
     *  where it was exactly when the stream had nothing left there. */
    method ReadHeaderFields() returns (r: Result<HeaderFields>)
      requires stream.pos % 8 == 0
      modifies stream`pos
      ensures Agrees(r, ParseHeaderFields(stream.data, old(stream.pos)), stream.pos)
      ensures r.Failure? ==> (stream.pos == old(stream.pos) <==> Available(Window(0, |stream.data|), old(stream.pos)) == 0)
    {
      ChunkedFileWriters.EightAligned(stream.pos);
      var w := stream.Whole();
      var typeId := ReadUInt32(stream, w);
      if typeId.Failure? {
        return Failure(typeId.error);
      }
      var ignored := ReadUInt32(stream, w);
      if ignored.Failure? {
        return Failure(ignored.error);
      }
      var length := ReadInt64(stream, w);
      if length.Failure? {
        return Failure(length.error);
      }
      return Success(HeaderFields(typeId.value, length.value));
    }

    /** SetCurrent: opens the chunk's window, then invalidates the previous chunk's
     *  window and makes the new chunk current. */
    method SetCurrent(h: ChunkHeader) returns (r: Result<()>)
      requires Valid() && stream.pos == h.startOffset + ChunkHeaderSizeBytes && h.endOffset == DataWindow(h).End()
      modifies this`current, Ranges()`open
      ensures Valid()
      ensures r.Failure? <==> ValidateRange(stream.pos, LengthOf(stream.data, stream.canSeek), h.startOffset + ChunkHeaderSizeBytes, h.length).Failure?
      ensures r.Failure? ==> r.error == ValidateRange(stream.pos, LengthOf(stream.data, stream.canSeek), h.startOffset + ChunkHeaderSizeBytes, h.length).error
      ensures r.Failure? ==> current == old(current)
      ensures r.Success? ==> current.Some? && fresh(current.value) && fresh(current.value.range) && current.value.header == h && current.value.range.open
      ensures r.Success? && old(current).Some? ==> !old(current).value.range.open
    {
      var range := Open(stream, h.startOffset + ChunkHeaderSizeBytes, h.length);
      if range.Failure? {
        return Failure(range.error);
      }
      var chunk := new ChunkReader(h, range.value);
      if current.Some? {
        current.value.Invalidate();
      }
      current := Some(chunk);
      return Success(());
    }

    /** MoveNext: true and the next chunk current, or false at the end. */
    method MoveNext() returns (r: Result<bool>)
      requires Valid()
      modifies stream`pos, this`current, Ranges()`open
      ensures Valid()
      ensures MovedAs(r, NextChunk(stream.data, stream.canSeek, old(stream.pos), old(Current())), stream.pos, Current())
      ensures r != Success(true) ==> current == old(current)
      ensures r == Success(true) ==> current.Some? && fresh(current.value) && fresh(current.value.range) && current.value.range.open
      ensures r == Success(true) && old(current).Some? ==> !old(current).value.range.open
    {
      ghost var data, before, cur := stream.data, stream.pos, Current();
      if current.Some? {
        var aligned := SkipPast(current.value.header);
        if aligned.Failure? {
          return Failure(aligned.error);
        }
        if !aligned.value {
          return Success(false);
        }
      }
      assert NextChunk(data, stream.canSeek, before, cur) == ReadNext(data, stream.canSeek, stream.pos, cur);
      var header := TryReadChunkHeader();
      if header.Failure? {
        return Failure(header.error);
      }
      if header.value.None? {
        return Success(false);
      }
      var made := SetCurrent(header.value.value);
      if made.Failure? {
        return Failure(made.error);
      }
      return Success(true);
    }

    /** MoveNext's skip past the current chunk: SeekReadForwards to its end, then
     *  TryAlignRead to 8. */
    method SkipPast(h: ChunkHeader) returns (r: Result<bool>)
      modifies stream`pos
      ensures Agrees(r, SkipChunk(stream.data, stream.canSeek, old(stream.pos), h), stream.pos)
    {
      ghost var before := stream.pos;
      var sought := SeekReadForwards(stream, h.endOffset);
      if sought.Failure? {
        return Failure(sought.error);
      }
      assert SeekForwardsAt(|stream.data|, stream.canSeek, before, h.endOffset) == Success(stream.pos);
      r := TryAlignRead(stream, stream.Whole(), 8);
    }

    /** SeekTo: returns to a bookmarked chunk on a seekable stream, putting the
     *  position back where it was if that fails. */
    method SeekTo(bookmark: ChunkBookmark) returns (r: Result<ChunkReader>)
      requires Valid()
      modifies stream`pos, this`current, Ranges()`open
      ensures Valid()
      ensures !stream.canSeek ==> r == Failure(NotSupported)
      ensures stream.canSeek ==> (r.Success? <==> SeekChunk(stream.data, bookmark).Success?)
      ensures stream.canSeek && r.Failure? ==> r.error == SeekChunk(stream.data, bookmark).error
      ensures r.Failure? ==> stream.pos == old(stream.pos) && current == old(current)
      ensures r.Success? ==> current == Some(r.value) && fresh(r.value) && r.value.range.open
      ensures r.Success? ==> r.value.header == SeekChunk(stream.data, bookmark).value.value && stream.pos == SeekChunk(stream.data, bookmark).value.next
      ensures r.Success? && old(current).Some? ==> !old(current).value.range.open
    {
      if !stream.canSeek {
        return Failure(NotSupported);
      }
      var originalPosition := stream.pos;
      if bookmark.startOffset < 0 {
        return Failure(ArgumentOutOfRange);
      }
      var _ := stream.Seek(bookmark.startOffset);
      var header := TryReadChunkHeader();
      if header.Failure? {
        var _ := stream.Seek(originalPosition);
        return Failure(header.error);
      }
      if header.value.None? {
        var _ := stream.Seek(originalPosition);
        return Failure(InvalidOperation);
      }
      if header.value.value.typeId != bookmark.typeId {
        var _ := stream.Seek(originalPosition);
        return Failure(InvalidOperation);
      }
      var made := SetCurrent(header.value.value);
      if made.Failure? {
        var _ := stream.Seek(originalPosition);
        return Failure(made.error);
      }
      return Success(current.value);
    }
  }
}
