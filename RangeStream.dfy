/** RangeStream: a read-only view of the bytes [start, start + length) of another
 *  stream.  Its Position is the underlying position less `start`, its Length is
 *  the window's length, its seeks are clamped into the window and its reads stop
 *  at the window's end.  The byte codecs of the rest of the model read through a
 *  `Streams.Window` over the underlying stream, which is what reading a RangeStream
 *  amounts to; this module adds the range's own construction, Position, Seek,
 *  Read, Write and Dispose. */
module RangeStreams {
  import opened Wrappers
  import opened Bytes
  import opened Streams

  /** Stream.Length of the underlying stream: an unseekable stream has none, and
   *  asking for it throws NotSupportedException. */
  function LengthOf(data: seq<byte>, canSeek: bool): Option<nat>
  {
    if canSeek then Some(|data|) else None
  }

  /** ValidateRange: the window must start at or after 0, have a non-negative
   *  length, start no later than the underlying position and end within the
   *  underlying stream, and the checks are made in that order. */
  function ValidateRange(position: nat, streamLength: Option<nat>, start: int, length: int): (r: Result<Window>)
    ensures r.Success? <==> 0 <= start <= position && 0 <= length && streamLength.Some? && start + length <= streamLength.value
    ensures r.Success? ==> r.value.start == start && r.value.length == length
    ensures r.Failure? ==> r.error == (if start < 0 || length < 0 then ArgumentOutOfRange
                                       else if position < start then InvalidOperation
                                       else if streamLength.None? then NotSupported
                                       else ArgumentOutOfRange)
  {
    if start < 0 then Failure(ArgumentOutOfRange)
    else if length < 0 then Failure(ArgumentOutOfRange)
    else if position - start < 0 then Failure(InvalidOperation)
    else if streamLength.None? then Failure(NotSupported)
    else if start + length > streamLength.value then Failure(ArgumentOutOfRange)
    else Success(Window(start, length))
  }

  /** A validated window over a stream can be read through: it lies within the
   *  stream's bytes and the position is not before its start. */
  lemma ValidatedWindowIsReadable(data: seq<byte>, canSeek: bool, position: nat, start: int, length: int)
    requires ValidateRange(position, LengthOf(data, canSeek), start, length).Success?
    ensures Within(data, ValidateRange(position, LengthOf(data, canSeek), start, length).value, position)
    ensures Available(ValidateRange(position, LengthOf(data, canSeek), start, length).value, position) == Max(start + length - position, 0)
  {
  }

  /** The window over the rest of a stream from `position`, as WindowRemaining
   *  asks for it. */
  function RemainingRange(position: nat, streamLength: Option<nat>): (r: Result<Window>)
    ensures streamLength.None? ==> r == Failure(NotSupported)
    ensures streamLength.Some? ==> (r.Success? <==> position <= streamLength.value)
    ensures r.Failure? && streamLength.Some? ==> r.error == ArgumentOutOfRange
    ensures r.Success? ==> r.value == Window(position, streamLength.value - position)
  {
    if streamLength.None? then Failure(NotSupported)
    else ValidateRange(position, streamLength, position, streamLength.value - position)
  }

  /** The value Position takes when asked to move to `target`: clamped into
   *  [0, length]. */
  function Clamp(target: int, length: nat): (r: nat)
    ensures r <= length
    ensures 0 <= target <= length ==> r == target
    ensures target < 0 ==> r == 0
    ensures target > length ==> r == length
  {
    Max(Min(length, target), 0)
  }

  class RangeStream {
    const stream: Stream
    const window: Window
    /** False once disposed: the reference to the underlying stream is dropped. */
    var open: bool

    /** The range after its checks; `Open` makes them. */
    constructor (stream: Stream, window: Window)
      ensures this.stream == stream && this.window == window && open
    {
      this.stream, this.window := stream, window;
      open := true;
    }

    /** The window lies inside the underlying stream and its position is within
     *  or after the window. */
    ghost predicate Valid()
      reads stream
    {
      stream.Readable(window)
    }

    function Length(): nat
    {
      window.length
    }

    function Position(): int
      reads stream
    {
      stream.pos - window.start
    }

    /** CanWrite: a range is read-only. */
    function CanWrite(): bool
    {
      false
    }

    /** The Position setter: a negative value throws, anything else is clamped to
     *  at most Length. */
    method SetPosition(value: int) returns (r: Result<()>)
      requires Valid()
      modifies stream`pos
      ensures r.Success? <==> 0 <= value && open && stream.canSeek
      ensures r.Failure? ==> r.error == (if value < 0 then ArgumentOutOfRange else if !open then NullReference else NotSupported)
      ensures r.Failure? ==> stream.pos == old(stream.pos)
      ensures r.Success? ==> Position() == Min(value, Length()) && Valid()
    {
      if value < 0 {
        return Failure(ArgumentOutOfRange);
      }
      if !open {
        return Failure(NullReference);
      }
      r := stream.Seek(Min(value, window.length) + window.start);
    }

    /** Seek from the beginning: the offset is clamped into [0, Length]; the new
     *  Position is returned. */
    method SeekBegin(offset: int) returns (r: Result<int>)
      requires Valid()
      modifies stream`pos
      ensures r.Success? <==> open && stream.canSeek
      ensures r.Failure? ==> r.error == (if !open then NullReference else NotSupported) && stream.pos == old(stream.pos)
      ensures r.Success? ==> r.value == Position() == Clamp(offset, Length()) && Valid()
    {
      if !open {
        return Failure(NullReference);
      }
      var clamped := Clamp(offset, window.length);
      var sought := stream.Seek(window.start + clamped);
      if sought.Failure? {
        return Failure(sought.error);
      }
      return Success(Position());
    }

    /** Seek from the current position: the offset is clamped into
     *  [-Position, Length - Position], so the new Position is the old one moved by
     *  `offset` and clamped into [0, Length]. */
    method SeekCurrent(offset: int) returns (r: Result<int>)
      requires Valid()
      modifies stream`pos
      ensures r.Success? <==> open && stream.canSeek
      ensures r.Failure? ==> r.error == (if !open then NullReference else NotSupported) && stream.pos == old(stream.pos)
      ensures r.Success? ==> r.value == Position() == Clamp(old(Position()) + offset, Length()) && Valid()
    {
      if !open {
        return Failure(NullReference);
      }
      var max := window.length - Position();
      var min := -Position();
      var clamped := Max(Min(max, offset), min);
      var sought := stream.Seek(stream.pos + clamped);
      if sought.Failure? {
        return Failure(sought.error);
      }
      return Success(Position());
    }

    /** Read: nothing at or past the window's end, otherwise no more than the
     *  window still holds. */
    method Read(count: nat) returns (r: Result<seq<byte>>)
      requires Valid()
      modifies stream`pos
      ensures Valid()
      ensures r.Failure? <==> !open
      ensures r.Failure? ==> r.error == NullReference && stream.pos == old(stream.pos)
      ensures r.Success? ==> |r.value| == Min(count, Available(window, old(stream.pos)))
      ensures r.Success? ==> |r.value| <= Max(Length() - old(Position()), 0)
      ensures r.Success? && old(Position()) >= Length() ==> r.value == []
      ensures r.Success? ==> r.value == Slice(stream.data, old(stream.pos), |r.value|) && stream.pos == old(stream.pos) + |r.value|
    {
      if !open {
        return Failure(NullReference);
      }
      var bytesAvailable := window.length - Position();
      if bytesAvailable <= 0 {
        return Success([]);
      }
      var bytes := stream.Read(window, Min(bytesAvailable, count));
      return Success(bytes);
    }

    /** Write (and BeginWrite, EndWrite, SetLength): a range is read-only. */
    method Write(bytes: seq<byte>) returns (r: Result<()>)
      ensures r == Failure(NotSupported)
    {
      return Failure(NotSupported);
    }

    /** Dispose: drops the underlying stream, after which every use throws. */
    method Dispose()
      modifies this`open
      ensures !open
    {
      open := false;
    }
  }

  /** A new RangeStream, or the exception its constructor's checks throw. */
  method Open(stream: Stream, start: int, length: int) returns (r: Result<RangeStream>)
    ensures r.Failure? <==> ValidateRange(stream.pos, LengthOf(stream.data, stream.canSeek), start, length).Failure?
    ensures r.Failure? ==> r.error == ValidateRange(stream.pos, LengthOf(stream.data, stream.canSeek), start, length).error
    ensures r.Success? ==> fresh(r.value) && r.value.open && r.value.Valid() && r.value.Position() == stream.pos - start
    ensures r.Success? ==> r.value.stream == stream && r.value.window == Window(start, length)
  {
    var checked := ValidateRange(stream.pos, LengthOf(stream.data, stream.canSeek), start, length);
    if checked.Failure? {
      return Failure(checked.error);
    }
    var range := new RangeStream(stream, checked.value);
    return Success(range);
  }

  /** WindowRemaining: a range over the rest of the stream from its position. */
  method OpenRemaining(stream: Stream) returns (r: Result<RangeStream>)
    ensures r.Failure? <==> RemainingRange(stream.pos, LengthOf(stream.data, stream.canSeek)).Failure?
    ensures r.Failure? ==> r.error == RemainingRange(stream.pos, LengthOf(stream.data, stream.canSeek)).error
    ensures r.Success? ==> fresh(r.value) && r.value.open && r.value.Valid() && r.value.Position() == 0
    ensures r.Success? ==> r.value.stream == stream && r.value.window == Window(stream.pos, |stream.data| - stream.pos)
  {
    if !stream.canSeek {
      return Failure(NotSupported);
    }
    r := Open(stream, stream.pos, |stream.data| - stream.pos);
  }
}
