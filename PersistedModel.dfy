/** ColumnFlags: the per-column flags stored in a table file, a 16-bit flag set of
 *  which only the two low bits have a meaning.  Nullable is bit 0; AbsentWhenNull is
 *  bits 0 and 1 together, so an absent-when-null column is always nullable. */
module ColumnFlags {
  import opened Bytes

  /** The flags enum's underlying `short`, as bits. */
  type Flags = bv16

  const NoFlags: Flags := 0
  const Nullable: Flags := 0x0001
  const AbsentWhenNull: Flags := 0x0003

  /** The OR of every value of the enum. */
  const AllColumnFlags: Flags := NoFlags | Nullable | AbsentWhenNull

  /** InternalHasFlag: every bit of `flag` is set in `flags`. */
  predicate HasFlag(flags: Flags, flag: Flags)
  {
    flags & flag == flag
  }

  /** IsNullable: the low bit is set. */
  predicate IsNullable(flags: Flags)
  {
    HasFlag(flags, Nullable)
  }

  /** OmitNulls: both low bits are set. */
  predicate OmitNulls(flags: Flags)
  {
    HasFlag(flags, AbsentWhenNull)
  }

  /** GetUnknownFlags: the bits no enum value names. */
  function UnknownFlags(flags: Flags): (r: Flags)
    ensures r & AllColumnFlags == 0
  {
    flags & !AllColumnFlags
  }

  /** GetKnownFlags: the bits some enum value names. */
  function KnownFlags(flags: Flags): (r: Flags)
    ensures r & !AllColumnFlags == 0
    ensures r == flags <==> UnknownFlags(flags) == 0
  {
    flags & AllColumnFlags
  }

  /** The masking every column serialiser applies to the flags it is given
   *  (`flags & AbsentWhenNull`): unknown bits are dropped and both meanings kept. */
  function Masked(flags: Flags): (r: Flags)
    ensures UnknownFlags(r) == 0
    ensures IsNullable(r) == IsNullable(flags) && OmitNulls(r) == OmitNulls(flags)
    ensures r == KnownFlags(flags)
  {
    flags & AbsentWhenNull
  }

  /** What the two tests mean for the value of the flags. */
  lemma FlagMeanings(flags: Flags)
    ensures IsNullable(flags) <==> flags % 2 == 1
    ensures OmitNulls(flags) <==> flags % 4 == 3
    ensures OmitNulls(flags) ==> IsNullable(flags)
  {
  }

  /** As numbers: only the values 0 to 3 have no unknown bits, and the known bits
   *  are one of them. */
  lemma FlagValues(flags: Flags)
    ensures UnknownFlags(flags) == 0 <==> flags as int < 4
    ensures KnownFlags(flags) as int < 4
  {
  }

  /** The known and unknown parts of a flag set are disjoint and make it up. */
  lemma KnownAndUnknown(flags: Flags)
    ensures KnownFlags(flags) & UnknownFlags(flags) == 0
    ensures KnownFlags(flags) | UnknownFlags(flags) == flags
  {
  }

  /** `(short)flags`: the 16 bits read as a signed integer. */
  function AsShort(flags: Flags): int16
  {
    if flags as int < 0x8000 then flags as int else flags as int - 0x1_0000
  }

  /** `(ColumnFlags)value`: the 16 bits of a signed integer. */
  function OfShort(value: int16): Flags
  {
    (if value < 0 then value as int + 0x1_0000 else value as int) as bv16
  }

  /** Casting the flags to `short` and back gives them back. */
  lemma ShortRoundTrip(flags: Flags)
    ensures OfShort(AsShort(flags)) == flags
  {
  }
}

/** ColumnDataType: the stored type tag of a column (the enum's `int` value), and
 *  its classification, which decides how the length is checked and how columns are
 *  ordered in a row. */
module ColumnDataType {
  import opened Wrappers
  import opened Bytes

  /** The enum's underlying value; a file may hold any 32-bit value here. */
  type Tag = int32

  const Invalid: Tag := 0
  const SignedInteger: Tag := 1
  const UnsignedInteger: Tag := 2
  const FloatingPoint: Tag := 3
  const String: Tag := 4
  const VariableLengthBytes: Tag := 5
  const FixedLengthString: Tag := 6
  const FixedLengthBytes: Tag := 7
  const DecimalFloatingPoint: Tag := 8
  const Guid: Tag := 9
  const Time: Tag := 10
  const DateTime: Tag := 11
  const DateTimeOffset: Tag := 12

  /** ColumnDataTypeClassification. */
  datatype Classification = FixedLengthPrimitive | FixedLengthBuffer | VariableLengthBuffer
  {
    /** The enum's value, which is also the order of the classes in a row. */
    function Ordinal(): int
    {
      match this
      case FixedLengthPrimitive => 1
      case FixedLengthBuffer => 2
      case VariableLengthBuffer => 3
    }

    predicate IsFixedLength()
    {
      FixedLengthPrimitive? || FixedLengthBuffer?
    }
  }

  /** Classify: Invalid and values outside the enum throw ArgumentOutOfRangeException. */
  function Classify(dataType: Tag): (r: Result<Classification>)
    ensures r.Success? <==> 1 <= dataType <= 12
    ensures r.Failure? ==> r.error == ArgumentOutOfRange
    ensures r.Success? ==> (r.value == VariableLengthBuffer <==> dataType in {String, VariableLengthBytes})
    ensures r.Success? ==> (r.value == FixedLengthBuffer <==> dataType in {FixedLengthString, FixedLengthBytes})
  {
    if dataType in {SignedInteger, UnsignedInteger, FloatingPoint, DecimalFloatingPoint, Guid, Time, DateTime, DateTimeOffset} then
      Success(FixedLengthPrimitive)
    else if dataType in {FixedLengthString, FixedLengthBytes} then
      Success(FixedLengthBuffer)
    else if dataType in {String, VariableLengthBytes} then
      Success(VariableLengthBuffer)
    else
      Failure(ArgumentOutOfRange)
  }

  /** The ordinals strictly increase from primitives to fixed buffers to variable
   *  buffers, and tell the classes apart. */
  lemma OrdinalsOrdered(a: Classification, b: Classification)
    ensures FixedLengthPrimitive.Ordinal() < FixedLengthBuffer.Ordinal() < VariableLengthBuffer.Ordinal()
    ensures a.Ordinal() == b.Ordinal() <==> a == b
    ensures a.IsFixedLength() <==> a.Ordinal() < VariableLengthBuffer.Ordinal()
  {
  }
}

/** ColumnDescriptor: what a table file records of each column, and its structural
 *  equality comparer. */
module ColumnDescriptors {
  import opened Wrappers
  import opened Bytes
  import ColumnFlags
  import ColumnDataType

  /** A descriptor; the name is a string reference and so may be null. */
  datatype ColumnDescriptor = ColumnDescriptor(
    originalName: Option<string>,
    columnFlags: ColumnFlags.Flags,
    originalIndex: int16,
    storedDataType: ColumnDataType.Tag,
    length: int32)

  /** The comparer's Equals on two references, `None` being null: the same reference
   *  is equal, a null is equal to nothing else, and otherwise all five fields must
   *  be equal (the names ordinally). */
  predicate Equal(x: Option<ColumnDescriptor>, y: Option<ColumnDescriptor>)
  {
    if x == y then true
    else if x.None? || y.None? then false
    else
      x.value.originalName == y.value.originalName
      && x.value.columnFlags == y.value.columnFlags
      && x.value.originalIndex == y.value.originalIndex
      && x.value.storedDataType == y.value.storedDataType
      && x.value.length == y.value.length
  }

  /** The comparer is exactly equality of the descriptors' values, so it is an
   *  equivalence relation. */
  lemma EqualIsValueEquality(x: Option<ColumnDescriptor>, y: Option<ColumnDescriptor>, z: Option<ColumnDescriptor>)
    ensures Equal(x, y) <==> x == y
    ensures Equal(x, x)
    ensures Equal(x, y) ==> Equal(y, x)
    ensures Equal(x, y) && Equal(y, z) ==> Equal(x, z)
  {
  }

  /** An `int` with the wrap-around of unchecked arithmetic. */
  function Wrap32(v: int): (r: int32)
    ensures (r - v) % 0x1_0000_0000 == 0
  {
    DivModUnique(v + 0x8000_0000, 0x1_0000_0000, (v + 0x8000_0000) / 0x1_0000_0000, (v + 0x8000_0000) % 0x1_0000_0000);
    (v + 0x8000_0000) % 0x1_0000_0000 - 0x8000_0000
  }

  /** The bits of an `int`. */
  function Bits32(v: int32): bv32
  {
    ((v as int) % 0x1_0000_0000) as bv32
  }

  /** The `int` with the given bits. */
  function Int32OfBits(b: bv32): int32
  {
    Wrap32(b as int)
  }

  /** `(hash * 397) ^ value`, unchecked. */
  function Combine(hash: int32, value: int32): int32
  {
    Int32OfBits(Bits32(Wrap32(hash * 397)) ^ Bits32(value))
  }

  /** GetHashCode, given the hash of a string and that of a short, which belong to
   *  the runtime.  The flags are widened to `int` with their sign. */
  function Hash(d: ColumnDescriptor, stringHash: string -> int32, shortHash: int16 -> int32): int32
  {
    var name := if d.originalName.Some? then stringHash(d.originalName.value) else 0;
    var h := Combine(name, ColumnFlags.AsShort(d.columnFlags));
    var h := Combine(h, shortHash(d.originalIndex));
    var h := Combine(h, d.storedDataType);
    Combine(h, d.length)
  }

  /** Descriptors the comparer calls equal have equal hash codes. */
  lemma EqualHashesEqual(x: ColumnDescriptor, y: ColumnDescriptor, stringHash: string -> int32, shortHash: int16 -> int32)
    requires Equal(Some(x), Some(y))
    ensures Hash(x, stringHash, shortHash) == Hash(y, stringHash, shortHash)
  {
  }
}
