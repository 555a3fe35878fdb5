/** NullFieldMap: the null flags of a row, one per column, of which only the
 *  nullable columns' flags are stored, as a sparse bit set packed by their
 *  ascending column ordinals. */
module NullFieldMaps {
  import opened Wrappers
  import opened Bytes
  import opened Streams
  import opened Serialiser
  import opened BitSets
  import ColumnFlags
  import opened ColumnSerialisers

  /** The ordinals of the nullable columns, in ascending order. */
  function NullableIndexes(columns: seq<ColumnSerialiser>): (r: seq<nat>)
    ensures Increasing(r) && Fits(r, |columns|)
    ensures forall i :: 0 <= i < |columns| ==> (i in r <==> ColumnFlags.IsNullable(columns[i].flags))
  {
    if |columns| == 0 then []
    else
      var last := |columns| - 1;
      var rest := NullableIndexes(columns[..last]);
      assert forall i :: 0 <= i < last ==> columns[..last][i] == columns[i];
      if ColumnFlags.IsNullable(columns[last].flags) then rest + [last] else rest
  }

  /** The first `n` packed bytes of the null flags. */
  function PackedBytes(nulls: seq<bool>, indexes: seq<nat>, n: nat): (r: seq<byte>)
    ensures |r| == n
  {
    if n == 0 then [] else PackedBytes(nulls, indexes, n - 1) + [PackedByte(nulls, indexes, n - 1)]
  }

  /** Each of the first `n` packed bytes is the byte the packer makes. */
  lemma {:induction false} PackedBytesAt(nulls: seq<bool>, indexes: seq<nat>, n: nat, i: nat)
    requires i < n
    ensures PackedBytes(nulls, indexes, n)[i] == PackedByte(nulls, indexes, i)
  {
    if i < n - 1 {
      PackedBytesAt(nulls, indexes, n - 1, i);
    }
  }

  /** The packed null flags, PackedByteCount bytes. */
  function Bitmap(nulls: seq<bool>, indexes: seq<nat>): (r: seq<byte>)
    ensures |r| == PackedByteCountOf(indexes)
  {
    PackedBytes(nulls, indexes, PackedByteCountOf(indexes))
  }

  /** The bitmap holds, byte by byte, what the packer makes of the flags. */
  lemma BitmapPacked(nulls: seq<bool>, indexes: seq<nat>)
    ensures PackedFrom(Bitmap(nulls, indexes), nulls, indexes)
  {
    forall i | 0 <= i < PackedByteCountOf(indexes)
      ensures Bitmap(nulls, indexes)[i] == PackedByte(nulls, indexes, i)
    {
      PackedBytesAt(nulls, indexes, PackedByteCountOf(indexes), i);
    }
  }

  /** All flags clear, as a new map holds them. */
  function NoNulls(n: nat): (r: seq<bool>)
    ensures |r| == n && forall i :: 0 <= i < n ==> !r[i]
  {
    if n == 0 then [] else NoNulls(n - 1) + [false]
  }

  /** The flags a stored bitmap gives when no unstored flag is set: a nullable
   *  column's flag is its bit, any other column's is clear. */
  function NullsFrom(bytes: seq<byte>, indexes: seq<nat>, columnCount: nat): (r: seq<bool>)
    requires Fits(indexes, columnCount) && |indexes| <= 8 * |bytes|
    ensures |r| == columnCount
  {
    Unpacked(NoNulls(columnCount), bytes, indexes, |indexes|)
  }

  /** What a map's Read leaves depends only on the bitmap, as long as the flags it
   *  does not store are clear. */
  lemma UnpackedOverClearFlags(bits: seq<bool>, bytes: seq<byte>, indexes: seq<nat>)
    requires Fits(indexes, |bits|) && |indexes| <= 8 * |bytes| && Distinct(indexes)
    requires forall p :: 0 <= p < |bits| && p !in indexes ==> !bits[p]
    ensures Unpacked(bits, bytes, indexes, |indexes|) == NullsFrom(bytes, indexes, |bits|)
  {
    var u, v := Unpacked(bits, bytes, indexes, |indexes|), NullsFrom(bytes, indexes, |bits|);
    assert indexes[..|indexes|] == indexes;
    forall p | 0 <= p < |bits|
      ensures u[p] == v[p]
    {
      if p in indexes {
        var k :| 0 <= k < |indexes| && indexes[k] == p;
        UnpackedAt(bits, bytes, indexes, |indexes|, k);
        UnpackedAt(NoNulls(|bits|), bytes, indexes, |indexes|, k);
      } else {
        UnpackedElsewhere(bits, bytes, indexes, |indexes|, p);
        UnpackedElsewhere(NoNulls(|bits|), bytes, indexes, |indexes|, p);
      }
    }
  }

  /** Reading back a bitmap written from `nulls` gives each nullable column its flag
   *  and every other column a clear flag. */
  lemma BitmapRoundTrip(nulls: seq<bool>, indexes: seq<nat>, columnCount: nat, i: nat)
    requires Increasing(indexes) && Fits(indexes, columnCount) && Fits(indexes, |nulls|) && i < columnCount
    ensures NullsFrom(Bitmap(nulls, indexes), indexes, columnCount)[i] == (i in indexes && nulls[i])
  {
    IncreasingIsDistinct(indexes);
    BitmapPacked(nulls, indexes);
    var bytes := Bitmap(nulls, indexes);
    if i in indexes {
      var k :| 0 <= k < |indexes| && indexes[k] == i;
      PackUnpack(nulls, NoNulls(columnCount), bytes, indexes, k);
    } else {
      assert indexes[..|indexes|] == indexes;
      UnpackedElsewhere(NoNulls(columnCount), bytes, indexes, |indexes|, i);
    }
  }

  class NullFieldMap {
    const indexes: seq<nat>
    const packer: BitSetPacker
    /** NullFields: one flag per column. */
    const nullFields: array<bool>
    const buffer: array<byte>

    /** The packer packs the ascending nullable ordinals, every one of them has a
     *  flag, and the buffer holds exactly the packed bytes. */
    predicate Valid()
    {
      packer.indexes == indexes && Increasing(indexes) && Fits(indexes, nullFields.Length) &&
      buffer.Length == PackedByteCountOf(indexes)
    }

    /** The constructor picks the nullable columns in order. */
    constructor (columns: seq<ColumnSerialiser>)
      ensures Valid() && indexes == NullableIndexes(columns)
      ensures nullFields.Length == |columns| && nullFields[..] == NoNulls(|columns|)
      ensures buffer[..] == Zeros(PackedByteCountOf(indexes))
      ensures fresh(packer) && fresh(nullFields) && fresh(buffer)
    {
      var nullable: seq<nat> := [];
      for i := 0 to |columns|
        invariant nullable == NullableIndexes(columns[..i])
      {
        assert columns[..i + 1][..i] == columns[..i];
        if ColumnFlags.IsNullable(columns[i].flags) {
          nullable := nullable + [i];
        }
      }
      assert columns[..|columns|] == columns;
      indexes := nullable;
      packer := new BitSetPacker(nullable);
      nullFields := new bool[|columns|](_ => false);
      buffer := new byte[PackedByteCountOf(nullable)](_ => 0);
    }

    /** Write: packs the flags into the buffer and writes the buffer as it stands,
     *  with no alignment. */
    method Write(s: Stream) returns (r: Result<()>)
      requires Valid()
      modifies s, buffer
      ensures buffer[..] == Bitmap(nullFields[..], indexes)
      ensures Emitted(r, EmitFixed(old(s.pos), s.canWrite, Bitmap(nullFields[..], indexes), 1), old(s.data), old(s.pos), s.data, s.pos)
    {
      packer.Pack(nullFields, buffer);
      BitmapPacked(nullFields[..], indexes);
      assert buffer[..] == Bitmap(nullFields[..], indexes);
      r := WriteFixedLengthBytes(s, buffer[..]);
    }

    /** Read: fills the buffer from the stream and unpacks it, which sets the flag of
     *  every nullable column and leaves the others as they were. */
    method Read(s: Stream, w: Window) returns (r: Result<()>)
      requires Valid() && s.Readable(w)
      modifies s`pos, buffer, nullFields
      ensures s.Readable(w)
      ensures match ParseFixed(s.data, w, old(s.pos), PackedByteCountOf(indexes), 1)
        case Success(p) =>
          r == Success(()) && s.pos == p.next && buffer[..] == p.value &&
          nullFields[..] == Unpacked(old(nullFields[..]), p.value, indexes, |indexes|)
        case Failure(e) => r == Failure(e)
      ensures forall i :: 0 <= i < nullFields.Length && i !in indexes ==> nullFields[i] == old(nullFields[i])
    {
      var bytes := ReadFixedLengthBytes(s, w, buffer.Length);
      if bytes.Failure? {
        return Failure(bytes.error);
      }
      forall i | 0 <= i < buffer.Length {
        buffer[i] := bytes.value[i];
      }
      assert buffer[..] == bytes.value;
      assert nullFields[..] == old(nullFields[..]);
      assert Min(|indexes|, 8 * buffer.Length) == |indexes|;
      packer.Unpack(buffer, nullFields);
      assert indexes[..|indexes|] == indexes;
      forall i | 0 <= i < nullFields.Length && i !in indexes
        ensures nullFields[i] == old(nullFields[i])
      {
        UnpackedElsewhere(old(nullFields[..]), bytes.value, indexes, |indexes|, i);
      }
      r := Success(());
    }
  }
}
