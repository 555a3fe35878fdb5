/** The primitive codec: little-endian integers, GUIDs, date/time binary forms,
 *  fixed-length buffers and length-prefixed buffers on a stream, with zero-padding
 *  on write and skipping on read to align to a boundary of 1..16 bytes.
 *
 *  Each read is specified by a `Parse...` function over the stream's bytes, the
 *  window it reads through and the position; each write by an `Emit...` function
 *  giving the bytes it puts at the position.  Positions seen by alignment and by
 *  the alignment check are relative to the window's start on a read, and absolute
 *  on a write.  The alignment check is the paranoid check of debug builds and is
 *  always on here. */
module Serialiser {
  import opened Wrappers
  import opened Bytes
  import opened Streams
  import Utf8

  const MaximumAlignment := 16
  /** Size of the scratch buffer used to skip bytes when aligning a read. */
  const AlignScratchLength := 16
  /** Size of the scratch buffer used to skip forwards on an unseekable stream. */
  const SeekScratchLength := 4 * 1024 * 1024

  /** A GUID in its 16-byte array form. */
  type Guid = s: seq<byte> | |s| == 16 witness Zeros(16)

  /** A DateTimeOffset: the binary form of its DateTime and the offset in minutes. */
  datatype DateTimeOffset = DateTimeOffset(dateTime: int64, offsetMinutes: int32)

  /** A value decoded from a stream and the position after it. */
  datatype Parsed<+T> = Parsed(value: T, next: nat)

  /** A method's result `r` and final position `pos` are those that `f` describes. */
  predicate Agrees<T(==)>(r: Result<T>, f: Result<Parsed<T>>, pos: nat)
  {
    match f
    case Success(p) => r == Success(p.value) && pos == p.next
    case Failure(e) => r == Failure(e)
  }

  /** A method's result `r` and the stream state `after`, `pos` after it are those of
   *  writing what `f` gives at `at` over `before`. */
  predicate Emitted(r: Result<()>, f: Result<seq<byte>>, before: seq<byte>, at: nat, after: seq<byte>, pos: nat)
  {
    match f
    case Success(bytes) => r == Success(()) && after == Splice(before, at, bytes) && pos == at + |bytes|
    case Failure(e) => r == Failure(e)
  }

  // ---------------------------------------------------------------- alignment

  /** GetAlignmentAdjustment: how far to move `position` to reach a multiple of
   *  `alignment`. */
  function AlignmentAdjustment(position: nat, alignment: int): (r: Result<nat>)
    ensures r.Failure? <==> alignment <= 0 || alignment > MaximumAlignment
    ensures r.Failure? ==> r.error == Argument
    ensures r.Success? ==> r.value < alignment && (position + r.value) % alignment == 0
    ensures r.Success? ==> (r.value == 0 <==> position % alignment == 0)
  {
    if alignment <= 0 || alignment > MaximumAlignment then Failure(Argument)
    else
      var misalignment := position % alignment;
      if misalignment == 0 then Success(0)
      else
        DivModUnique(position + alignment - misalignment, alignment, position / alignment + 1, 0);
        Success(alignment - misalignment)
  }

  /** The adjustment is the least step that reaches an aligned position. */
  lemma AdjustmentIsLeast(position: nat, alignment: int, k: nat)
    requires 0 < alignment <= MaximumAlignment
    requires k < AlignmentAdjustment(position, alignment).value
    ensures (position + k) % alignment != 0
  {
    var m := position % alignment;
    DivModUnique(position + k, alignment, position / alignment, m + k);
  }

  /** IsAligned. */
  predicate IsAligned(position: nat, alignment: int)
    requires alignment > 0
  {
    position % alignment == 0
  }

  /** The paranoid alignment check: positions must be multiples of an alignment
   *  above 1. */
  function CheckAlignment(position: nat, alignment: int): Result<()>
  {
    if alignment <= 1 || position % alignment == 0 then Success(()) else Failure(InvalidOperation)
  }

  /** A window starting on an 8-byte boundary sees the same alignment for 1, 2, 4
   *  and 8 as the stream underneath it. */
  lemma RelativeAlignment(position: nat, start: nat, alignment: nat)
    requires start <= position && start % 8 == 0 && alignment in {1, 2, 4, 8}
    ensures (position - start) % alignment == position % alignment
  {
    var q := start / 8;
    assert start == alignment * ((8 / alignment) * q);
    var p := position - start;
    DivModUnique(position, alignment, p / alignment + (8 / alignment) * q, p % alignment);
  }

  // ---------------------------------------------------------------- skipping

  /** SeekReadForwardsInternal: skips `distance` bytes by reads of at most
   *  `scratchLength` bytes; true iff every byte was there.  It stops at the end of
   *  the window. */
  method SkipForwards(s: Stream, w: Window, scratchLength: nat, distance: nat) returns (ok: bool)
    requires s.Readable(w) && scratchLength > 0
    modifies s`pos
    ensures s.Readable(w)
    ensures ok <==> distance <= Available(w, old(s.pos))
    ensures s.pos == old(s.pos) + Min(distance, Available(w, old(s.pos)))
  {
    var remaining: nat := distance;
    while remaining > scratchLength
      invariant s.Readable(w) && remaining <= distance
      invariant s.pos == old(s.pos) + (distance - remaining)
      invariant distance - remaining <= Available(w, old(s.pos))
      invariant Available(w, s.pos) == Available(w, old(s.pos)) - (distance - remaining)
    {
      var bytes := s.Read(w, scratchLength);
      if |bytes| <= 0 {
        return false;
      }
      remaining := remaining - |bytes|;
    }
    var last := s.Read(w, remaining);
    return |last| == remaining;
  }

  /** The position after skipping `distance` bytes from `pos`, and whether they
   *  were all there. */
  function SkipAt(w: Window, pos: nat, distance: nat): Parsed<bool>
  {
    Parsed(distance <= Available(w, pos), pos + Min(distance, Available(w, pos)))
  }

  /** TryAlignRead: skips to the next position aligned relative to the window's
   *  start. */
  function TryAlignReadAt(w: Window, pos: nat, alignment: int): (r: Result<Parsed<bool>>)
    requires w.start <= pos
    ensures r.Success? <==> 0 < alignment <= MaximumAlignment
  {
    var adjustment :- AlignmentAdjustment(pos - w.start, alignment);
    Success(SkipAt(w, pos, adjustment))
  }

  /** TryAlignRead moves to the first aligned position and says true exactly when
   *  that position is within the window; otherwise there is no aligned position
   *  left in the window, and it stops at the window's end (not moving at all from
   *  the end or beyond). */
  lemma TryAlignReadMeaning(w: Window, pos: nat, alignment: int)
    requires w.start <= pos && 0 < alignment <= MaximumAlignment
    ensures TryAlignReadAt(w, pos, alignment).Success?
    ensures var p := TryAlignReadAt(w, pos, alignment).value;
      p.value ==> IsAligned(p.next - w.start, alignment) && pos <= p.next < pos + alignment &&
                  (p.next == pos || p.next <= w.End())
    ensures var p := TryAlignReadAt(w, pos, alignment).value;
      p.value ==> forall k :: pos - w.start <= k < p.next - w.start ==> !IsAligned(k, alignment)
    ensures var p := TryAlignReadAt(w, pos, alignment).value;
      !p.value ==> (p.next == Max(pos, w.End()) &&
                    forall k :: pos - w.start <= k <= w.length ==> !IsAligned(k, alignment))
  {
    var rel := pos - w.start;
    var adj := AlignmentAdjustment(rel, alignment).value;
    forall k | rel <= k < rel + adj
      ensures !IsAligned(k, alignment)
    {
      AdjustmentIsLeast(rel, alignment, k - rel);
    }
  }

  method TryAlignRead(s: Stream, w: Window, alignment: int) returns (r: Result<bool>)
    requires s.Readable(w)
    modifies s`pos
    ensures s.Readable(w)
    ensures Agrees(r, TryAlignReadAt(w, old(s.pos), alignment), s.pos)
  {
    var adjustment := AlignmentAdjustment(s.pos - w.start, alignment);
    if adjustment.Failure? {
      return Failure(adjustment.error);
    }
    var ok := SkipForwards(s, w, AlignScratchLength, adjustment.value);
    return Success(ok);
  }

  /** AlignRead: TryAlignRead, failing with EndOfStream where it says false. */
  function AlignReadAt(w: Window, pos: nat, alignment: int): (r: Result<Parsed<()>>)
    requires w.start <= pos
    ensures r.Success? ==> r.value.next >= pos
  {
    var aligned :- TryAlignReadAt(w, pos, alignment);
    if aligned.value then Success(Parsed((), aligned.next)) else Failure(EndOfStream)
  }

  method AlignRead(s: Stream, w: Window, alignment: int) returns (r: Result<()>)
    requires s.Readable(w)
    modifies s`pos
    ensures s.Readable(w)
    ensures Agrees(r, AlignReadAt(w, old(s.pos), alignment), s.pos)
  {
    var aligned := TryAlignRead(s, w, alignment);
    if aligned.Failure? {
      return Failure(aligned.error);
    }
    if !aligned.value {
      return Failure(EndOfStream);
    }
    return Success(());
  }

  /** SeekReadForwards: a seek on a seekable stream; otherwise a reading skip, which
   *  cannot go backwards. */
  method SeekReadForwards(s: Stream, position: nat) returns (r: Result<()>)
    requires s.Readable(s.Whole())
    modifies s`pos
    ensures s.Readable(s.Whole())
    ensures s.canSeek ==> r == Success(()) && s.pos == position
    ensures !s.canSeek && position < old(s.pos) ==> r == Failure(NotSupported)
    ensures !s.canSeek && old(s.pos) <= position ==>
              (r.Success? <==> position <= Max(old(s.pos), |s.data|)) &&
              (r.Failure? ==> r.error == EndOfStream) &&
              s.pos == Min(position, Max(old(s.pos), |s.data|))
  {
    if s.canSeek {
      r := s.Seek(position);
      return;
    }
    if position < s.pos {
      return Failure(NotSupported);
    }
    var ok := SkipForwards(s, s.Whole(), SeekScratchLength, position - s.pos);
    if !ok {
      return Failure(EndOfStream);
    }
    return Success(());
  }

  /** IsEndOfStream, on the position relative to the window. */
  function IsEndOfStreamAt(w: Window, pos: nat): bool
  {
    pos >= w.End()
  }

  /** AlignWrite: zero-pads to the next multiple of `alignment` of the absolute
   *  position; an aligned position writes nothing. */
  function EmitAlignment(pos: nat, canWrite: bool, alignment: int): (r: Result<seq<byte>>)
  {
    if !canWrite then Failure(NotSupported)
    else
      var adjustment :- AlignmentAdjustment(pos, alignment);
      Success(Zeros(adjustment))
  }

  /** AlignWrite emits exactly the adjustment's zeros and leaves the position
   *  aligned; only a read-only stream or a bad alignment makes it fail. */
  lemma EmitAlignmentMeaning(pos: nat, canWrite: bool, alignment: int)
    ensures var r := EmitAlignment(pos, canWrite, alignment);
      (r.Success? <==> canWrite && 0 < alignment <= MaximumAlignment) &&
      (r.Failure? ==> r.error == if canWrite then Argument else NotSupported) &&
      (r.Success? ==> (pos + |r.value|) % alignment == 0 && |r.value| < alignment &&
                      (forall i :: 0 <= i < |r.value| ==> r.value[i] == 0) &&
                      (|r.value| == 0 <==> pos % alignment == 0))
  {
  }

  /** The padding a write puts at `at` is exactly what an aligned read from `at`
   *  skips, through a window that starts on an 8-byte boundary. */
  lemma AlignmentRoundTrip(w: Window, at: nat, canWrite: bool, alignment: int)
    requires EmitAlignment(at, canWrite, alignment).Success? && alignment in {1, 2, 4, 8}
    requires w.start % 8 == 0 && w.start <= at && at + |EmitAlignment(at, canWrite, alignment).value| <= w.End()
    ensures AlignReadAt(w, at, alignment) == Success(Parsed((), at + |EmitAlignment(at, canWrite, alignment).value|))
  {
    RelativeAlignment(at, w.start, alignment);
  }

  method AlignWrite(s: Stream, alignment: int) returns (r: Result<()>)
    modifies s
    ensures Emitted(r, EmitAlignment(old(s.pos), s.canWrite, alignment), old(s.data), old(s.pos), s.data, s.pos)
  {
    if !s.canWrite {
      return Failure(NotSupported);
    }
    var adjustment := AlignmentAdjustment(s.pos, alignment);
    if adjustment.Failure? {
      return Failure(adjustment.error);
    }
    if adjustment.value == 0 {
      return Success(());
    }
    r := s.Write(Zeros(adjustment.value));
  }

  // ---------------------------------------------------------------- fixed-width reads

  /** ReadFixedLengthBytesInternal over CheckedRead: the alignment check, then
   *  exactly `count` bytes or EndOfStream. */
  function ParseFixed(data: seq<byte>, w: Window, pos: nat, count: nat, alignment: int): (r: Result<Parsed<seq<byte>>>)
    requires Within(data, w, pos)
    ensures r.Success? <==> CheckAlignment(pos - w.start, alignment).Success? && count <= Available(w, pos)
    ensures r.Failure? ==> r.error == if CheckAlignment(pos - w.start, alignment).Failure? then InvalidOperation else EndOfStream
    ensures r.Success? ==> |r.value.value| == count && r.value.next == pos + count
    ensures r.Success? && count > 0 ==> r.value.value == data[pos..pos + count]
  {
    var _ :- CheckAlignment(pos - w.start, alignment);
    if Available(w, pos) < count then Failure(EndOfStream)
    else Success(Parsed(Slice(data, pos, count), pos + count))
  }

  /** CheckedRead: reads what is there, and fails unless that was `count` bytes. */
  method CheckedRead(s: Stream, w: Window, count: nat) returns (r: Result<seq<byte>>)
    requires s.Readable(w)
    modifies s`pos
    ensures s.Readable(w)
    ensures Agrees(r, ParseFixed(s.data, w, old(s.pos), count, 1), s.pos)
    ensures s.pos == old(s.pos) + Min(count, Available(w, old(s.pos)))
  {
    var bytes := s.Read(w, count);
    if |bytes| < count {
      return Failure(EndOfStream);
    }
    return Success(bytes);
  }

  method ReadFixed(s: Stream, w: Window, count: nat, alignment: int) returns (r: Result<seq<byte>>)
    requires s.Readable(w)
    modifies s`pos
    ensures r.Failure? && CheckAlignment(old(s.pos) - w.start, alignment).Success? ==> s.pos == old(s.pos) + Available(w, old(s.pos))
    ensures s.Readable(w)
    ensures Agrees(r, ParseFixed(s.data, w, old(s.pos), count, alignment), s.pos)
  {
    var aligned := CheckAlignment(s.pos - w.start, alignment);
    if aligned.Failure? {
      return Failure(aligned.error);
    }
    r := CheckedRead(s, w, count);
  }

  /** WriteFixedLengthBytesInternal: the alignment check, then the bytes. */
  function EmitFixed(pos: nat, canWrite: bool, bytes: seq<byte>, alignment: int): (r: Result<seq<byte>>)
    ensures r.Success? <==> CheckAlignment(pos, alignment).Success? && canWrite
    ensures r.Failure? ==> r.error == if CheckAlignment(pos, alignment).Failure? then InvalidOperation else NotSupported
    ensures r.Success? ==> r.value == bytes
  {
    var _ :- CheckAlignment(pos, alignment);
    if canWrite then Success(bytes) else Failure(NotSupported)
  }

  method WriteFixed(s: Stream, bytes: seq<byte>, alignment: int) returns (r: Result<()>)
    modifies s
    ensures r.Failure? ==> s.data == old(s.data) && s.pos == old(s.pos)
    ensures Emitted(r, EmitFixed(old(s.pos), s.canWrite, bytes, alignment), old(s.data), old(s.pos), s.data, s.pos)
  {
    var aligned := CheckAlignment(s.pos, alignment);
    if aligned.Failure? {
      return Failure(aligned.error);
    }
    r := s.Write(bytes);
  }

  /** What a fixed-width write puts down, a fixed-width read at the same place
   *  reads back, when the window sees the same alignment. */
  lemma FixedRoundTrip(data: seq<byte>, w: Window, at: nat, canWrite: bool, bytes: seq<byte>, alignment: int)
    requires EmitFixed(at, canWrite, bytes, alignment).Success?
    requires Within(data, w, at) && at + |bytes| <= w.End()
    requires data[at..at + |bytes|] == bytes
    requires alignment <= 1 || (at - w.start) % alignment == at % alignment
    ensures ParseFixed(data, w, at, |bytes|, alignment) == Success(Parsed(bytes, at + |bytes|))
  {
  }

  // ---------------------------------------------------------------- integers

  function Int16Of(bs: seq<byte>): int16 requires |bs| == 2 { PowValues(); DecodeSigned(bs) }
  function Int32Of(bs: seq<byte>): int32 requires |bs| == 4 { PowValues(); DecodeSigned(bs) }
  function Int64Of(bs: seq<byte>): int64 requires |bs| == 8 { PowValues(); DecodeSigned(bs) }
  function UInt16Of(bs: seq<byte>): uint16 requires |bs| == 2 { PowValues(); FromLE(bs) }
  function UInt32Of(bs: seq<byte>): uint32 requires |bs| == 4 { PowValues(); FromLE(bs) }
  function UInt64Of(bs: seq<byte>): uint64 requires |bs| == 8 { PowValues(); FromLE(bs) }

  /** BitConverter.GetBytes on a little-endian machine: two's complement, low byte
   *  first. */
  function Int16Bytes(v: int16): (r: seq<byte>) ensures |r| == 2 { EncodeSigned(v, 2) }
  function Int32Bytes(v: int32): (r: seq<byte>) ensures |r| == 4 { EncodeSigned(v, 4) }
  function Int64Bytes(v: int64): (r: seq<byte>) ensures |r| == 8 { EncodeSigned(v, 8) }
  function UInt16Bytes(v: uint16): (r: seq<byte>) ensures |r| == 2 { ToLE(v, 2) }
  function UInt32Bytes(v: uint32): (r: seq<byte>) ensures |r| == 4 { ToLE(v, 4) }
  function UInt64Bytes(v: uint64): (r: seq<byte>) ensures |r| == 8 { ToLE(v, 8) }

  /** The signed encodings are bijections between the values and their byte strings. */
  lemma Int16Codec(v: int16, bs: seq<byte>)
    requires |bs| == 2
    ensures Int16Of(Int16Bytes(v)) == v && Int16Bytes(Int16Of(bs)) == bs
  {
    PowValues();
    SignedRoundTrip(v, 2);
    SignedRoundTripBytes(bs);
  }

  lemma Int32Codec(v: int32, bs: seq<byte>)
    requires |bs| == 4
    ensures Int32Of(Int32Bytes(v)) == v && Int32Bytes(Int32Of(bs)) == bs
  {
    PowValues();
    SignedRoundTrip(v, 4);
    SignedRoundTripBytes(bs);
  }

  lemma Int64Codec(v: int64, bs: seq<byte>)
    requires |bs| == 8
    ensures Int64Of(Int64Bytes(v)) == v && Int64Bytes(Int64Of(bs)) == bs
  {
    PowValues();
    SignedRoundTrip(v, 8);
    SignedRoundTripBytes(bs);
  }

  /** The unsigned encodings are bijections too. */
  lemma UnsignedCodec(v: nat, n: nat, bs: seq<byte>)
    requires v < Pow(0x100, n) && |bs| == n
    ensures FromLE(ToLE(v, n)) == v && ToLE(FromLE(bs), n) == bs
  {
    FromLEToLE(v, n);
    ToLEFromLE(bs);
  }

  /** The byte strings BitConverter gives for some values. */
  lemma IntegerEncodings()
    ensures Int16Bytes(-2) == [0xFE, 0xFF] && Int16Bytes(0x1234) == [0x34, 0x12]
    ensures Int32Bytes(-1) == [0xFF, 0xFF, 0xFF, 0xFF] && Int32Bytes(1) == [1, 0, 0, 0]
    ensures Int64Bytes(-0x8000_0000_0000_0000) == [0, 0, 0, 0, 0, 0, 0, 0x80]
    ensures UInt32Bytes(0x4C42_5442) == [0x42, 0x54, 0x42, 0x4C]
  {
    NarrowEncodings();
    WideEncodings();
  }

  lemma NarrowEncodings()
    ensures Int16Bytes(-2) == [0xFE, 0xFF] && Int16Bytes(0x1234) == [0x34, 0x12]
    ensures Int32Bytes(-1) == [0xFF, 0xFF, 0xFF, 0xFF] && Int32Bytes(1) == [1, 0, 0, 0]
  {
    PowValues();
  }

  lemma WideEncodings()
    ensures Int64Bytes(-0x8000_0000_0000_0000) == [0, 0, 0, 0, 0, 0, 0, 0x80]
    ensures UInt32Bytes(0x4C42_5442) == [0x42, 0x54, 0x42, 0x4C]
  {
    PowValues();
  }

  function ParseInt16(data: seq<byte>, w: Window, pos: nat): (r: Result<Parsed<int16>>)
    requires Within(data, w, pos)
    ensures r.Success? ==> r.value.next == pos + 2
  {
    var p :- ParseFixed(data, w, pos, 2, 2);
    Success(Parsed(Int16Of(p.value), p.next))
  }

  function ParseUInt16(data: seq<byte>, w: Window, pos: nat): (r: Result<Parsed<uint16>>)
    requires Within(data, w, pos)
    ensures r.Success? ==> r.value.next == pos + 2
  {
    var p :- ParseFixed(data, w, pos, 2, 2);
    Success(Parsed(UInt16Of(p.value), p.next))
  }

  function ParseInt32(data: seq<byte>, w: Window, pos: nat): (r: Result<Parsed<int32>>)
    requires Within(data, w, pos)
    ensures r.Success? ==> r.value.next == pos + 4
  {
    var p :- ParseFixed(data, w, pos, 4, 4);
    Success(Parsed(Int32Of(p.value), p.next))
  }

  function ParseUInt32(data: seq<byte>, w: Window, pos: nat): (r: Result<Parsed<uint32>>)
    requires Within(data, w, pos)
    ensures r.Success? ==> r.value.next == pos + 4
  {
    var p :- ParseFixed(data, w, pos, 4, 4);
    Success(Parsed(UInt32Of(p.value), p.next))
  }

  function ParseInt64(data: seq<byte>, w: Window, pos: nat): (r: Result<Parsed<int64>>)
    requires Within(data, w, pos)
    ensures r.Success? ==> r.value.next == pos + 8
  {
    var p :- ParseFixed(data, w, pos, 8, 4);
    Success(Parsed(Int64Of(p.value), p.next))
  }

  function ParseUInt64(data: seq<byte>, w: Window, pos: nat): (r: Result<Parsed<uint64>>)
    requires Within(data, w, pos)
    ensures r.Success? ==> r.value.next == pos + 8
  {
    var p :- ParseFixed(data, w, pos, 8, 4);
    Success(Parsed(UInt64Of(p.value), p.next))
  }

  /** A 16/32/64-bit read returns the value the matching write put at the same
   *  place. */
  lemma Int16RoundTrip(data: seq<byte>, w: Window, at: nat, canWrite: bool, v: int16)
    requires EmitFixed(at, canWrite, Int16Bytes(v), 2).Success?
    requires Within(data, w, at) && at + 2 <= w.End() && data[at..at + 2] == Int16Bytes(v)
    requires (at - w.start) % 2 == at % 2
    ensures ParseInt16(data, w, at) == Success(Parsed(v, at + 2))
  {
    FixedRoundTrip(data, w, at, canWrite, Int16Bytes(v), 2);
    Int16Codec(v, Int16Bytes(v));
  }

  lemma Int32RoundTrip(data: seq<byte>, w: Window, at: nat, canWrite: bool, v: int32)
    requires EmitFixed(at, canWrite, Int32Bytes(v), 4).Success?
    requires Within(data, w, at) && at + 4 <= w.End() && data[at..at + 4] == Int32Bytes(v)
    requires (at - w.start) % 4 == at % 4
    ensures ParseInt32(data, w, at) == Success(Parsed(v, at + 4))
  {
    FixedRoundTrip(data, w, at, canWrite, Int32Bytes(v), 4);
    Int32Codec(v, Int32Bytes(v));
  }

  lemma Int64RoundTrip(data: seq<byte>, w: Window, at: nat, canWrite: bool, v: int64)
    requires EmitFixed(at, canWrite, Int64Bytes(v), 4).Success?
    requires Within(data, w, at) && at + 8 <= w.End() && data[at..at + 8] == Int64Bytes(v)
    requires (at - w.start) % 4 == at % 4
    ensures ParseInt64(data, w, at) == Success(Parsed(v, at + 8))
  {
    FixedRoundTrip(data, w, at, canWrite, Int64Bytes(v), 4);
    Int64Codec(v, Int64Bytes(v));
  }

  lemma UInt32RoundTrip(data: seq<byte>, w: Window, at: nat, canWrite: bool, v: uint32)
    requires EmitFixed(at, canWrite, UInt32Bytes(v), 4).Success?
    requires Within(data, w, at) && at + 4 <= w.End() && data[at..at + 4] == UInt32Bytes(v)
    requires (at - w.start) % 4 == at % 4
    ensures ParseUInt32(data, w, at) == Success(Parsed(v, at + 4))
  {
    FixedRoundTrip(data, w, at, canWrite, UInt32Bytes(v), 4);
    PowValues();
    UnsignedCodec(v, 4, UInt32Bytes(v));
  }

  lemma UInt16RoundTrip(data: seq<byte>, w: Window, at: nat, canWrite: bool, v: uint16)
    requires EmitFixed(at, canWrite, UInt16Bytes(v), 2).Success?
    requires Within(data, w, at) && at + 2 <= w.End() && data[at..at + 2] == UInt16Bytes(v)
    requires (at - w.start) % 2 == at % 2
    ensures ParseUInt16(data, w, at) == Success(Parsed(v, at + 2))
  {
    FixedRoundTrip(data, w, at, canWrite, UInt16Bytes(v), 2);
    PowValues();
    UnsignedCodec(v, 2, UInt16Bytes(v));
  }

  lemma UInt64RoundTrip(data: seq<byte>, w: Window, at: nat, canWrite: bool, v: uint64)
    requires EmitFixed(at, canWrite, UInt64Bytes(v), 4).Success?
    requires Within(data, w, at) && at + 8 <= w.End() && data[at..at + 8] == UInt64Bytes(v)
    requires (at - w.start) % 4 == at % 4
    ensures ParseUInt64(data, w, at) == Success(Parsed(v, at + 8))
  {
    FixedRoundTrip(data, w, at, canWrite, UInt64Bytes(v), 4);
    PowValues();
    UnsignedCodec(v, 8, UInt64Bytes(v));
  }

  method ReadInt16(s: Stream, w: Window) returns (r: Result<int16>)
    requires s.Readable(w)
    modifies s`pos
    ensures s.Readable(w) && Agrees(r, ParseInt16(s.data, w, old(s.pos)), s.pos)
  {
    var p := ReadFixed(s, w, 2, 2);
    if p.Failure? {
      return Failure(p.error);
    }
    return Success(Int16Of(p.value));
  }

  method ReadUInt16(s: Stream, w: Window) returns (r: Result<uint16>)
    requires s.Readable(w)
    modifies s`pos
    ensures s.Readable(w) && Agrees(r, ParseUInt16(s.data, w, old(s.pos)), s.pos)
  {
    var p := ReadFixed(s, w, 2, 2);
    if p.Failure? {
      return Failure(p.error);
    }
    return Success(UInt16Of(p.value));
  }

  method ReadInt32(s: Stream, w: Window) returns (r: Result<int32>)
    requires s.Readable(w)
    modifies s`pos
    ensures s.Readable(w) && Agrees(r, ParseInt32(s.data, w, old(s.pos)), s.pos)
  {
    var p := ReadFixed(s, w, 4, 4);
    if p.Failure? {
      return Failure(p.error);
    }
    return Success(Int32Of(p.value));
  }

  method ReadUInt32(s: Stream, w: Window) returns (r: Result<uint32>)
    requires s.Readable(w)
    modifies s`pos
    ensures r.Failure? && (old(s.pos) - w.start) % 4 == 0 ==> s.pos == old(s.pos) + Available(w, old(s.pos))
    ensures s.Readable(w) && Agrees(r, ParseUInt32(s.data, w, old(s.pos)), s.pos)
  {
    var p := ReadFixed(s, w, 4, 4);
    if p.Failure? {
      return Failure(p.error);
    }
    return Success(UInt32Of(p.value));
  }

  method ReadInt64(s: Stream, w: Window) returns (r: Result<int64>)
    requires s.Readable(w)
    modifies s`pos
    ensures r.Failure? && (old(s.pos) - w.start) % 4 == 0 ==> s.pos == old(s.pos) + Available(w, old(s.pos))
    ensures s.Readable(w) && Agrees(r, ParseInt64(s.data, w, old(s.pos)), s.pos)
  {
    var p := ReadFixed(s, w, 8, 4);
    if p.Failure? {
      return Failure(p.error);
    }
    return Success(Int64Of(p.value));
  }

  method ReadUInt64(s: Stream, w: Window) returns (r: Result<uint64>)
    requires s.Readable(w)
    modifies s`pos
    ensures s.Readable(w) && Agrees(r, ParseUInt64(s.data, w, old(s.pos)), s.pos)
  {
    var p := ReadFixed(s, w, 8, 4);
    if p.Failure? {
      return Failure(p.error);
    }
    return Success(UInt64Of(p.value));
  }

  method WriteInt16(s: Stream, v: int16) returns (r: Result<()>)
    modifies s
    ensures Emitted(r, EmitFixed(old(s.pos), s.canWrite, Int16Bytes(v), 2), old(s.data), old(s.pos), s.data, s.pos)
  {
    r := WriteFixed(s, Int16Bytes(v), 2);
  }

  method WriteUInt16(s: Stream, v: uint16) returns (r: Result<()>)
    modifies s
    ensures Emitted(r, EmitFixed(old(s.pos), s.canWrite, UInt16Bytes(v), 2), old(s.data), old(s.pos), s.data, s.pos)
  {
    r := WriteFixed(s, UInt16Bytes(v), 2);
  }

  method WriteInt32(s: Stream, v: int32) returns (r: Result<()>)
    modifies s
    ensures Emitted(r, EmitFixed(old(s.pos), s.canWrite, Int32Bytes(v), 4), old(s.data), old(s.pos), s.data, s.pos)
  {
    r := WriteFixed(s, Int32Bytes(v), 4);
  }

  method WriteUInt32(s: Stream, v: uint32) returns (r: Result<()>)
    modifies s
    ensures Emitted(r, EmitFixed(old(s.pos), s.canWrite, UInt32Bytes(v), 4), old(s.data), old(s.pos), s.data, s.pos)
  {
    r := WriteFixed(s, UInt32Bytes(v), 4);
  }

  method WriteInt64(s: Stream, v: int64) returns (r: Result<()>)
    modifies s
    ensures r.Failure? ==> s.data == old(s.data) && s.pos == old(s.pos)
    ensures Emitted(r, EmitFixed(old(s.pos), s.canWrite, Int64Bytes(v), 4), old(s.data), old(s.pos), s.data, s.pos)
  {
    r := WriteFixed(s, Int64Bytes(v), 4);
  }

  method WriteUInt64(s: Stream, v: uint64) returns (r: Result<()>)
    modifies s
    ensures Emitted(r, EmitFixed(old(s.pos), s.canWrite, UInt64Bytes(v), 4), old(s.data), old(s.pos), s.data, s.pos)
  {
    r := WriteFixed(s, UInt64Bytes(v), 4);
  }

  // ---------------------------------------------------------------- floating point

  /** Single and Double travel as their IEEE 754 bit patterns, which BitConverter
   *  reinterprets without change. */
  type SingleBits = uint32
  type DoubleBits = uint64

  function ParseSingle(data: seq<byte>, w: Window, pos: nat): (r: Result<Parsed<SingleBits>>)
    requires Within(data, w, pos)
  {
    ParseUInt32(data, w, pos)
  }

  function ParseDouble(data: seq<byte>, w: Window, pos: nat): (r: Result<Parsed<DoubleBits>>)
    requires Within(data, w, pos)
  {
    ParseUInt64(data, w, pos)
  }

  method WriteSingle(s: Stream, v: SingleBits) returns (r: Result<()>)
    modifies s
    ensures Emitted(r, EmitFixed(old(s.pos), s.canWrite, UInt32Bytes(v), 4), old(s.data), old(s.pos), s.data, s.pos)
  {
    r := WriteUInt32(s, v);
  }

  method ReadSingle(s: Stream, w: Window) returns (r: Result<SingleBits>)
    requires s.Readable(w)
    modifies s`pos
    ensures s.Readable(w) && Agrees(r, ParseSingle(s.data, w, old(s.pos)), s.pos)
  {
    r := ReadUInt32(s, w);
  }

  method WriteDouble(s: Stream, v: DoubleBits) returns (r: Result<()>)
    modifies s
    ensures Emitted(r, EmitFixed(old(s.pos), s.canWrite, UInt64Bytes(v), 4), old(s.data), old(s.pos), s.data, s.pos)
  {
    r := WriteUInt64(s, v);
  }

  method ReadDouble(s: Stream, w: Window) returns (r: Result<DoubleBits>)
    requires s.Readable(w)
    modifies s`pos
    ensures s.Readable(w) && Agrees(r, ParseDouble(s.data, w, old(s.pos)), s.pos)
  {
    r := ReadUInt64(s, w);
  }

  // ---------------------------------------------------------------- single bytes

  /** ReadByte: the next byte, EndOfStream at the end; never an alignment check. */
  function ParseByte(data: seq<byte>, w: Window, pos: nat): (r: Result<Parsed<byte>>)
    requires Within(data, w, pos)
    ensures r.Failure? <==> IsEndOfStreamAt(w, pos)
    ensures r.Failure? ==> r.error == EndOfStream
    ensures r.Success? ==> r.value == Parsed(data[pos], pos + 1)
  {
    if Available(w, pos) == 0 then Failure(EndOfStream) else Success(Parsed(data[pos], pos + 1))
  }

  method ReadByte(s: Stream, w: Window) returns (r: Result<byte>)
    requires s.Readable(w)
    modifies s`pos
    ensures s.Readable(w) && Agrees(r, ParseByte(s.data, w, old(s.pos)), s.pos)
  {
    var bytes := s.Read(w, 1);
    if |bytes| == 0 {
      return Failure(EndOfStream);
    }
    return Success(bytes[0]);
  }

  /** WriteByte: one byte, no alignment. */
  function EmitByte(canWrite: bool, b: byte): (r: Result<seq<byte>>)
    ensures r == if canWrite then Success([b]) else Failure(NotSupported)
  {
    if canWrite then Success([b]) else Failure(NotSupported)
  }

  method WriteByte(s: Stream, b: byte) returns (r: Result<()>)
    modifies s
    ensures Emitted(r, EmitByte(s.canWrite, b), old(s.data), old(s.pos), s.data, s.pos)
  {
    r := s.Write([b]);
  }

  // ---------------------------------------------------------------- GUIDs and dates

  function ParseGuid(data: seq<byte>, w: Window, pos: nat): (r: Result<Parsed<Guid>>)
    requires Within(data, w, pos)
    ensures r.Success? ==> r.value.next == pos + 16
  {
    var p :- ParseFixed(data, w, pos, 16, 8);
    Success(Parsed(p.value, p.next))
  }

  method ReadGuid(s: Stream, w: Window) returns (r: Result<Guid>)
    requires s.Readable(w)
    modifies s`pos
    ensures s.Readable(w) && Agrees(r, ParseGuid(s.data, w, old(s.pos)), s.pos)
  {
    var p := ReadFixed(s, w, 16, 8);
    if p.Failure? {
      return Failure(p.error);
    }
    return Success(p.value);
  }

  method WriteGuid(s: Stream, g: Guid) returns (r: Result<()>)
    modifies s
    ensures Emitted(r, EmitFixed(old(s.pos), s.canWrite, g, 8), old(s.data), old(s.pos), s.data, s.pos)
  {
    r := WriteFixed(s, g, 8);
  }

  lemma GuidRoundTrip(data: seq<byte>, w: Window, at: nat, canWrite: bool, g: Guid)
    requires EmitFixed(at, canWrite, g, 8).Success?
    requires Within(data, w, at) && at + 16 <= w.End() && data[at..at + 16] == g
    requires (at - w.start) % 8 == at % 8
    ensures ParseGuid(data, w, at) == Success(Parsed(g, at + 16))
  {
    FixedRoundTrip(data, w, at, canWrite, g, 8);
  }

  /** A DateTime travels as its 64-bit binary form (DateTime.ToBinary). */
  function ParseDateTime(data: seq<byte>, w: Window, pos: nat): (r: Result<Parsed<int64>>)
    requires Within(data, w, pos)
  {
    ParseInt64(data, w, pos)
  }

  method ReadDateTime(s: Stream, w: Window) returns (r: Result<int64>)
    requires s.Readable(w)
    modifies s`pos
    ensures s.Readable(w) && Agrees(r, ParseDateTime(s.data, w, old(s.pos)), s.pos)
  {
    r := ReadInt64(s, w);
  }

  method WriteDateTime(s: Stream, binary: int64) returns (r: Result<()>)
    modifies s
    ensures Emitted(r, EmitFixed(old(s.pos), s.canWrite, Int64Bytes(binary), 4), old(s.data), old(s.pos), s.data, s.pos)
  {
    r := WriteInt64(s, binary);
  }

  /** A DateTimeOffset is 12 bytes: the DateTime's binary form, then the offset in
   *  minutes as a 32-bit integer. */
  function EmitDateTimeOffset(pos: nat, canWrite: bool, v: DateTimeOffset): (r: Result<seq<byte>>)
    ensures r.Success? ==> r.value == Int64Bytes(v.dateTime) + Int32Bytes(v.offsetMinutes)
  {
    var a :- EmitFixed(pos, canWrite, Int64Bytes(v.dateTime), 4);
    var b :- EmitFixed(pos + 8, canWrite, Int32Bytes(v.offsetMinutes), 4);
    Success(a + b)
  }

  function ParseDateTimeOffset(data: seq<byte>, w: Window, pos: nat): (r: Result<Parsed<DateTimeOffset>>)
    requires Within(data, w, pos)
    ensures r.Success? ==> r.value.next == pos + 12
  {
    var d :- ParseDateTime(data, w, pos);
    var m :- ParseInt32(data, w, d.next);
    Success(Parsed(DateTimeOffset(d.value, m.value), m.next))
  }

  method WriteDateTimeOffset(s: Stream, v: DateTimeOffset) returns (r: Result<()>)
    modifies s
    ensures Emitted(r, EmitDateTimeOffset(old(s.pos), s.canWrite, v), old(s.data), old(s.pos), s.data, s.pos)
  {
    r := WriteDateTime(s, v.dateTime);
    if r.Failure? {
      return;
    }
    r := WriteInt32(s, v.offsetMinutes);
    SpliceSplice(old(s.data), old(s.pos), Int64Bytes(v.dateTime), Int32Bytes(v.offsetMinutes));
  }

  method ReadDateTimeOffset(s: Stream, w: Window) returns (r: Result<DateTimeOffset>)
    requires s.Readable(w)
    modifies s`pos
    ensures s.Readable(w) && Agrees(r, ParseDateTimeOffset(s.data, w, old(s.pos)), s.pos)
  {
    var d := ReadDateTime(s, w);
    if d.Failure? {
      return Failure(d.error);
    }
    var m := ReadInt32(s, w);
    if m.Failure? {
      return Failure(m.error);
    }
    return Success(DateTimeOffset(d.value, m.value));
  }

  lemma DateTimeOffsetRoundTrip(data: seq<byte>, w: Window, at: nat, canWrite: bool, v: DateTimeOffset)
    requires EmitDateTimeOffset(at, canWrite, v).Success?
    requires Within(data, w, at) && at + 12 <= w.End()
    requires data[at..at + 12] == EmitDateTimeOffset(at, canWrite, v).value
    requires (at - w.start) % 4 == at % 4
    ensures ParseDateTimeOffset(data, w, at) == Success(Parsed(v, at + 12))
  {
    var e := EmitDateTimeOffset(at, canWrite, v).value;
    assert data[at..at + 8] == e[..8] == Int64Bytes(v.dateTime);
    assert data[at + 8..at + 12] == e[8..] == Int32Bytes(v.offsetMinutes);
    WindowAlignmentAhead(at, w.start, 8);
    assert CheckAlignment(at + 8, 4).Success?;
    Int64RoundTrip(data, w, at, canWrite, v.dateTime);
    Int32RoundTrip(data, w, at + 8, canWrite, v.offsetMinutes);
  }

  /** A window whose start agrees with the stream on alignment to 4 still agrees
   *  `d` bytes further on; and a 4-aligned position stays so 8 bytes on. */
  lemma WindowAlignmentAhead(at: nat, start: nat, d: nat)
    requires start <= at && (at - start) % 4 == at % 4
    ensures (at + d - start) % 4 == (at + d) % 4
    ensures at % 4 == 0 ==> (at + 8) % 4 == 0
  {
    var r := at % 4;
    var q1, q2 := (at - start) / 4, at / 4;
    DivModUnique(at - start, 4, q1, r);
    DivModUnique(at, 4, q2, r);
    assert start == 4 * (q2 - q1);
    DivModUnique(at + d - start, 4, (at + d) / 4 - (q2 - q1), (at + d) % 4);
    if r == 0 {
      DivModUnique(at + 8, 4, q2 + 2, 0);
    }
  }

  // ---------------------------------------------------------------- buffers

  /** WriteBytes: the length as a 32-bit integer, then the bytes.  Strings are
   *  written as their UTF-8 bytes the same way. */
  function EmitBytes(pos: nat, canWrite: bool, bytes: seq<byte>): (r: Result<seq<byte>>)
    requires |bytes| < 0x8000_0000
    ensures r.Success? ==> r.value == Int32Bytes(|bytes|) + bytes
  {
    var length :- EmitFixed(pos, canWrite, Int32Bytes(|bytes|), 4);
    Success(length + bytes)
  }

  /** ReadBytes: a 32-bit length, then exactly that many bytes; a negative length
   *  cannot be allocated. */
  function ParseBytes(data: seq<byte>, w: Window, pos: nat): (r: Result<Parsed<seq<byte>>>)
    requires Within(data, w, pos)
    ensures r.Success? ==> r.value.next == pos + 4 + |r.value.value|
  {
    var length :- ParseInt32(data, w, pos);
    if length.value < 0 then Failure(Overflow)
    else ParseFixed(data, w, length.next, length.value, 1)
  }

  method WriteBytes(s: Stream, bytes: seq<byte>) returns (r: Result<()>)
    requires |bytes| < 0x8000_0000
    modifies s
    ensures Emitted(r, EmitBytes(old(s.pos), s.canWrite, bytes), old(s.data), old(s.pos), s.data, s.pos)
  {
    r := WriteInt32(s, |bytes|);
    if r.Failure? {
      return;
    }
    r := s.Write(bytes);
    SpliceSplice(old(s.data), old(s.pos), Int32Bytes(|bytes|), bytes);
  }

  method ReadBytes(s: Stream, w: Window) returns (r: Result<seq<byte>>)
    requires s.Readable(w)
    modifies s`pos
    ensures s.Readable(w) && Agrees(r, ParseBytes(s.data, w, old(s.pos)), s.pos)
  {
    var length := ReadInt32(s, w);
    if length.Failure? {
      return Failure(length.error);
    }
    if length.value < 0 {
      return Failure(Overflow);
    }
    r := CheckedRead(s, w, length.value);
  }

  /** ReadBytes reads back exactly what WriteBytes wrote, 4 + |bytes| bytes. */
  lemma BytesRoundTrip(data: seq<byte>, w: Window, at: nat, canWrite: bool, bytes: seq<byte>)
    requires |bytes| < 0x8000_0000 && EmitBytes(at, canWrite, bytes).Success?
    requires Within(data, w, at) && at + 4 + |bytes| <= w.End()
    requires data[at..at + 4 + |bytes|] == EmitBytes(at, canWrite, bytes).value
    requires (at - w.start) % 4 == at % 4
    ensures ParseBytes(data, w, at) == Success(Parsed(bytes, at + 4 + |bytes|))
  {
    var e := EmitBytes(at, canWrite, bytes).value;
    assert data[at..at + 4] == e[..4] == Int32Bytes(|bytes|);
    assert data[at + 4..at + 4 + |bytes|] == e[4..] == bytes;
    Int32RoundTrip(data, w, at, canWrite, |bytes|);
  }

  /** WriteString: the string's UTF-8 bytes as a buffer.  A null string cannot be
   *  encoded and throws before anything is written. */
  method WriteString(s: Stream, value: Option<string>) returns (r: Result<()>)
    requires value.Some? ==> |Utf8.Encode(value.value)| < 0x8000_0000
    modifies s
    ensures value.None? ==> r == Failure(ArgumentNull) && s.data == old(s.data) && s.pos == old(s.pos)
    ensures value.Some? ==> Emitted(r, EmitBytes(old(s.pos), s.canWrite, Utf8.Encode(value.value)), old(s.data), old(s.pos), s.data, s.pos)
  {
    if value.None? {
      return Failure(ArgumentNull);
    }
    r := WriteBytes(s, Utf8.Encode(value.value));
  }

  /** ReadString: a buffer, decoded as UTF-8. */
  function ParseString(data: seq<byte>, w: Window, pos: nat): (r: Result<Parsed<string>>)
    requires Within(data, w, pos)
    ensures r.Success? ==> r.value.next >= pos + 4
    ensures r.Success? <==> ParseBytes(data, w, pos).Success?
  {
    var bytes :- ParseBytes(data, w, pos);
    Success(Parsed(Utf8.Decode(bytes.value), bytes.next))
  }

  method ReadString(s: Stream, w: Window) returns (r: Result<string>)
    requires s.Readable(w)
    modifies s`pos
    ensures s.Readable(w) && Agrees(r, ParseString(s.data, w, old(s.pos)), s.pos)
  {
    var bytes := ReadBytes(s, w);
    if bytes.Failure? {
      return Failure(bytes.error);
    }
    return Success(Utf8.Decode(bytes.value));
  }

  /** ReadString reads back the string WriteString wrote. */
  lemma StringRoundTrip(data: seq<byte>, w: Window, at: nat, canWrite: bool, text: string)
    requires |Utf8.Encode(text)| < 0x8000_0000 && EmitBytes(at, canWrite, Utf8.Encode(text)).Success?
    requires Within(data, w, at) && at + 4 + |Utf8.Encode(text)| <= w.End()
    requires data[at..at + 4 + |Utf8.Encode(text)|] == EmitBytes(at, canWrite, Utf8.Encode(text)).value
    requires (at - w.start) % 4 == at % 4
    ensures ParseString(data, w, at) == Success(Parsed(text, at + 4 + |Utf8.Encode(text)|))
  {
    BytesRoundTrip(data, w, at, canWrite, Utf8.Encode(text));
    Utf8.DecodeEncode(text);
  }

  /** WriteFixedLengthBytes and ReadFixedLengthBytes: the bytes alone, unaligned,
   *  read back into a buffer of the caller's length. */
  method WriteFixedLengthBytes(s: Stream, bytes: seq<byte>) returns (r: Result<()>)
    modifies s
    ensures Emitted(r, EmitFixed(old(s.pos), s.canWrite, bytes, 1), old(s.data), old(s.pos), s.data, s.pos)
  {
    r := WriteFixed(s, bytes, 1);
  }

  method ReadFixedLengthBytes(s: Stream, w: Window, length: nat) returns (r: Result<seq<byte>>)
    requires s.Readable(w)
    modifies s`pos
    ensures s.Readable(w) && Agrees(r, ParseFixed(s.data, w, old(s.pos), length, 1), s.pos)
  {
    r := ReadFixed(s, w, length, 1);
  }
}
