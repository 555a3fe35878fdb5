/** The column definitions the model builders choose (IColumnDefinition), each given by
 *  the serialiser its GetSerialiser returns.  The int and bigint columns' serialisers
 *  are not part of this model: only the metadata the builders and the validator read
 *  is given for them (a signed integer of 4 or 8 bytes), which is what the import
 *  builder's mapping of SignedInteger lengths back to them implies. */
module ColumnDefinitions {
  import opened Wrappers
  import opened Bytes
  import ColumnFlags
  import ColumnDataType
  import opened Columns
  import opened DecimalPacking
  import SerialiserValidation

  datatype Definition =
    | Shown(codec: ValidCodec)                    // one of the column serialisers of the model
    | IntColumn(requestedFlags: ColumnFlags.Flags)     // SqlServerIntColumn
    | BigIntColumn(requestedFlags: ColumnFlags.Flags)  // SqlServerBigIntColumn
  {
    function DataType(): ColumnDataType.Tag
    {
      match this
      case Shown(c) => c.DataType()
      case _ => ColumnDataType.SignedInteger
    }

    /** The stored length; -1 for the variable-length serialisers. */
    function Length(): (r: int)
      ensures -1 <= r < 0x8000_0000
    {
      match this
      case Shown(c) => c.Length()
      case IntColumn(_) => 4
      case BigIntColumn(_) => 8
    }

    function Flags(): ColumnFlags.Flags
    {
      match this
      case Shown(c) => c.Flags()
      case IntColumn(f) => ColumnFlags.Masked(f)
      case BigIntColumn(f) => ColumnFlags.Masked(f)
    }

    /** The metadata the validator checks. */
    function Info(): SerialiserValidation.SerialiserInfo
    {
      SerialiserValidation.SerialiserInfo(DataType(), Length(), Flags())
    }

    /** `DotNetType.Name`: the name of the CLR type its values have. */
    function DotNetTypeName(): string
    {
      match this
      case Shown(c) => (
        match c
        case TinyIntColumn(_) => "Byte"
        case BitColumn(_) => "Boolean"
        case SmallIntColumn(_) => "Int16"
        case SinglePrecisionColumn(_) => "Single"
        case DoublePrecisionColumn(_) => "Double"
        case UniqueIdentifierColumn(_) => "Guid"
        case TimeColumn(_) => "TimeSpan"
        case DateTimeColumn(_) => "DateTime"
        case DateTimeOffsetColumn(_) => "DateTimeOffset"
        case DecimalColumn(_, _, _) => "Decimal"
        case FixedLengthBytesColumn(_, _) => "Byte[]"
        case FixedLengthANSIStringColumn(_, _) => "String"
        case VariableLengthBytesColumn(_) => "Byte[]"
        case VariableLengthStringColumn(_) => "String")
      case IntColumn(_) => "Int32"
      case BigIntColumn(_) => "Int64"
    }

    /** The classification of its data type, which Classify never refuses here. */
    function Classification(): (r: ColumnDataType.Classification)
      ensures ColumnDataType.Classify(DataType()) == Success(r)
    {
      ColumnDataType.Classify(DataType()).value
    }
  }

  /** Every definition's metadata passes the validator, except a decimal serialiser
   *  whose packer has no bytes at all. */
  lemma DefinitionsValidate(s: Definition)
    ensures SerialiserValidation.Validate(s.Info()).Success? <==> !(s.Shown? && s.codec.DecimalColumn? && s.codec.bufferSize == 0)
  {
    if s.Shown? {
      SerialiserValidation.CodecsValidate(s.codec);
      assert s.Info() == SerialiserValidation.Info(s.codec);
    } else {
      assert SerialiserValidation.FixedLengthTag(ColumnDataType.SignedInteger);
    }
  }

  /** `new SqlServerDecimalColumn(DecimalPacker.ForBufferSize(size))` and its serialiser:
   *  a size that is not whole words is refused, and a negative one cannot be
   *  allocated. */
  function DecimalColumnForBufferSize(size: int32, flags: ColumnFlags.Flags): (r: Result<ValidCodec>)
    ensures r.Failure? <==> size % 4 != 0 || size < 0
    ensures r.Success? ==> r.value.DecimalColumn? && r.value.Length() == size as int && r.value.digitCount == DigitCountOfBuffer(size)
  {
    NewDecimalColumn(DigitCountOfBuffer(size), size, flags)
  }

  /** `new SqlServerDecimalColumn(DecimalPacker.ForDigitCount(precision))` and its
   *  serialiser, for a precision the catalogue reports: the packer's buffer is whole
   *  words, so the column accepts it. */
  function DecimalColumnForDigitCount(precision: byte, flags: ColumnFlags.Flags): (r: ValidCodec)
    ensures r.DecimalColumn? && r.Length() == ByteBufferSize(precision) && r.digitCount == precision as int
    ensures 4 <= r.Length() <= 132
  {
    PrecisionBufferSize(precision);
    NewDecimalColumn(precision, ByteBufferSize(precision) as int32, flags).value
  }

  /** 10^d is at most 16^d = 2^(4d). */
  lemma {:induction false} TenPowerBelowBits(d: nat)
    ensures Pow(10, d) <= Pow(2, 4 * d)
  {
    if d > 0 {
      TenPowerBelowBits(d - 1);
      PowAdd(2, 4 * (d - 1), 4);
      assert Pow(2, 4) == 16;
    }
  }

  /** ForDigitCount(precision) for a precision the catalogue can report (a byte) sizes a
   *  buffer of one to thirty-three words. */
  lemma PrecisionBufferSize(precision: byte)
    ensures 4 <= ByteBufferSize(precision) <= 132
  {
    var b := BitsForUnsigned(precision);
    BitsForUnsignedIsCeiling(precision);
    if b > 4 * precision {
      TenPowerBelowBits(precision);
      PowMonotone(2, 4 * precision, b - 1);
    }
    assert 0 <= b <= 4 * precision;
  }
}
