/** ColumnSerialiserValidator: the checks a serialiser's metadata must pass before
 *  it is used, alone and against the descriptor a table file stored for its
 *  column. */
module SerialiserValidation {
  import opened Wrappers
  import ColumnFlags
  import ColumnDataType
  import opened ColumnDescriptors
  import opened Columns

  /** What the validator sees of a serialiser (IColumnSerialiser's metadata). */
  datatype SerialiserInfo = SerialiserInfo(dataType: ColumnDataType.Tag, length: int, flags: ColumnFlags.Flags)

  /** The metadata of one of the column serialisers. */
  function Info(c: Codec): SerialiserInfo
  {
    SerialiserInfo(c.DataType(), c.Length(), c.Flags())
  }

  /** The classification of a tag that Classify accepts. */
  predicate FixedLengthTag(dataType: ColumnDataType.Tag)
    requires ColumnDataType.Classify(dataType).Success?
  {
    ColumnDataType.Classify(dataType).value.IsFixedLength()
  }

  /** Validate(serialiser): a tag Classify refuses throws ArgumentOutOfRangeException;
   *  a fixed-length class without a positive length, or any flag bit the enum does
   *  not name, throws InvalidSerialiserException.  A variable-length class may
   *  report any length. */
  function Validate(s: SerialiserInfo): (r: Result<()>)
    ensures r.Success? <==>
      ColumnDataType.Classify(s.dataType).Success? && (FixedLengthTag(s.dataType) ==> s.length > 0) &&
      ColumnFlags.UnknownFlags(s.flags) == 0
    ensures r.Failure? ==>
      r.error == if ColumnDataType.Classify(s.dataType).Failure? then ArgumentOutOfRange else InvalidSerialiser
  {
    var classification :- ColumnDataType.Classify(s.dataType);
    if classification.IsFixedLength() && s.length <= 0 then Failure(InvalidSerialiser)
    else if ColumnFlags.UnknownFlags(s.flags) != 0 then Failure(InvalidSerialiser)
    else Success(())
  }

  /** Validate(serialiser, descriptor): the basic check first, then the flags and the
   *  data type must be the descriptor's, and for a fixed-length class the length
   *  too. */
  function ValidateAgainst(s: SerialiserInfo, d: ColumnDescriptor): (r: Result<()>)
    ensures r.Success? <==>
      Validate(s).Success? && s.flags == d.columnFlags && s.dataType == d.storedDataType &&
      (FixedLengthTag(s.dataType) ==> s.length == d.length as int)
    ensures r.Failure? ==> r.error == if Validate(s).Failure? then Validate(s).error else InvalidSerialiser
  {
    var _ :- Validate(s);
    if s.flags != d.columnFlags then Failure(InvalidSerialiser)
    else if s.dataType != d.storedDataType then Failure(InvalidSerialiser)
    // the basic check has classified the tag already
    else if FixedLengthTag(s.dataType) && s.length != d.length as int then Failure(InvalidSerialiser)
    else Success(())
  }

  /** Every column serialiser passes the basic check except a decimal one whose
   *  packer has no bytes at all: the tags are all in the enum, the lengths of the
   *  fixed-length ones are positive, and the flags are masked. */
  lemma CodecsValidate(c: ValidCodec)
    ensures Validate(Info(c)).Success? <==> !(c.DecimalColumn? && c.bufferSize == 0)
  {
    match c
    case DecimalColumn(_, _, size) =>
      assert FixedLengthTag(ColumnDataType.DecimalFloatingPoint);
    case VariableLengthBytesColumn(_) =>
      assert !FixedLengthTag(ColumnDataType.VariableLengthBytes);
    case VariableLengthStringColumn(_) =>
      assert !FixedLengthTag(ColumnDataType.String);
    case _ =>
  }

  /** A serialiser validated against a descriptor reports exactly the descriptor's
   *  flags, type and (when fixed-length) length, so the descriptor says which
   *  serialiser class it is read with and how long its fields are. */
  lemma ValidatedAgainstDescriptor(c: ValidCodec, d: ColumnDescriptor)
    requires ValidateAgainst(Info(c), d).Success?
    ensures c.Flags() == d.columnFlags && c.DataType() == d.storedDataType
    ensures !(c.VariableLengthBytesColumn? || c.VariableLengthStringColumn?) ==> c.Length() == d.length as int
  {
    if !(c.VariableLengthBytesColumn? || c.VariableLengthStringColumn?) {
      assert FixedLengthTag(c.DataType());
    }
  }
}
