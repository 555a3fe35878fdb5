/** The column serialisers: one variant per column class, each with the metadata a
 *  table file records (data type tag, length, flags), the alignment it keeps and the
 *  value it writes for a null.
 *
 *  A serialiser's Write is specified by `Emit`, the bytes it puts at an absolute
 *  stream position for a field value, and its Read by `Parse`, the field value it
 *  decodes through a window at a position.  `ReadBack` says independently what a
 *  read returns for what was written, and `RoundTrip` proves the three agree. */
module Columns {
  import opened Wrappers
  import opened Bytes
  import opened Streams
  import opened Serialiser
  import opened DecimalPacking
  import ColumnFlags
  import ColumnDataType
  import Utf8

  /** A byte array: .NET arrays have fewer than 2^31 elements. */
  type Buffer = b: seq<byte> | |b| < 0x8000_0000

  /** System.Decimal holds a 96-bit magnitude and a scale of at most 28. */
  const DecimalMagnitudeLimit: nat := 0x1_0000_0000_0000_0000_0000_0000
  const DecimalScaleLimit := 28

  /** A System.Decimal: a sign, a magnitude and the power of ten it is divided by. */
  datatype Decimal = Decimal(positive: bool, magnitude: nat, scale: nat)

  type DotNetDecimal = d: Decimal | d.magnitude < DecimalMagnitudeLimit && d.scale <= DecimalScaleLimit
    witness Decimal(true, 0, 0)

  /** A 96-bit magnitude has at most 29 decimal digits. */
  lemma DecimalMagnitudeDigits(m: nat)
    requires m < DecimalMagnitudeLimit
    ensures DecimalDigits(m) <= 29
  {
    assert Pow(10, 8) == 100000000;
    assert Pow(10, 16) == 10000000000000000 by { PowAdd(10, 8, 8); }
    assert Pow(10, 24) == 1000000000000000000000000 by { PowAdd(10, 16, 8); }
    assert Pow(10, 5) == 100000;
    assert Pow(10, 29) == 100000000000000000000000000000 by { PowAdd(10, 24, 5); }
    DecimalDigitsBounds(m);
    if DecimalDigits(m) > 29 {
      PowMonotone(10, 29, DecimalDigits(m) - 1);
    }
  }

  /** `new SqlDecimal(decimal)`: the same sign, magnitude and scale, with zero
   *  positive, and as precision the number of digits (at least one, at least the
   *  scale). */
  function ToSqlDecimal(d: DotNetDecimal): (r: SqlDecimal)
    ensures r.Valid()
    ensures r.scale == d.scale && r.magnitude == d.magnitude && r.positive == (d.positive || d.magnitude == 0)
  {
    var digits := DecimalDigits(d.magnitude);
    var precision := Max(Max(1, digits), d.scale);
    DecimalMagnitudeDigits(d.magnitude);
    DecimalDigitsBounds(d.magnitude);
    PowMonotone(10, digits, precision);
    SqlDecimal(precision, d.scale, d.positive || d.magnitude == 0, d.magnitude)
  }

  /** SqlDecimal.Value: a value System.Decimal cannot hold throws OverflowException. */
  function FromSqlDecimal(s: SqlDecimal): (r: Result<DotNetDecimal>)
    ensures r.Success? <==> s.magnitude < DecimalMagnitudeLimit && s.scale <= DecimalScaleLimit
    ensures r.Failure? ==> r.error == Overflow
    ensures r.Success? ==> r.value == Decimal(s.positive, s.magnitude, s.scale)
  {
    if s.magnitude < DecimalMagnitudeLimit && s.scale <= DecimalScaleLimit then
      Success(Decimal(s.positive, s.magnitude, s.scale))
    else Failure(Overflow)
  }

  /** The decimal a conversion to SqlDecimal and back gives: a negative zero turns
   *  positive, whatever precision the SqlDecimal was given on the way. */
  lemma SqlDecimalConversion(d: DotNetDecimal, precision: nat)
    requires ToSqlDecimal(d).(precision := precision).Valid()
    ensures FromSqlDecimal(ToSqlDecimal(d).(precision := precision)) == Success(d.(positive := d.positive || d.magnitude == 0))
  {
  }

  /** The decimal 0. */
  const DecimalZero: DotNetDecimal := Decimal(true, 0, 0)

  /** A field of a data record, as an IDataRecord delivers it.  A string is the
   *  record's own string: a variable-length column writes it as UTF-8, a fixed-length
   *  ANSI one as ASCII. */
  datatype Value =
    | DBNull
    | BooleanValue(boolean: bool)
    | ByteValue(unsigned: byte)
    | Int16Value(short: int16)
    | Int32Value(integer: int32)
    | Int64Value(long: int64)
    | SingleValue(singleBits: SingleBits)
    | DoubleValue(doubleBits: DoubleBits)
    | DecimalValue(decimal: DotNetDecimal)
    | GuidValue(guid: Guid)
    | TimeSpanValue(ticks: int64)
    | DateTimeValue(binary: int64)
    | DateTimeOffsetValue(offsetValue: DateTimeOffset)
    | ByteArrayValue(bytes: Buffer)
    | StringValue(text: string)

  /** Encoding.ASCII.GetBytes: one byte per character, '?' for a character outside
   *  ASCII. */
  function AsciiEncoded(s: string): (r: seq<byte>)
    ensures |r| == |s|
    ensures forall i :: 0 <= i < |s| ==> r[i] == if (s[i] as int) < 0x80 then s[i] as int else 0x3F
  {
    seq(|s|, i requires 0 <= i < |s| => if (s[i] as int) < 0x80 then s[i] as int else 0x3F)
  }

  /** Encoding.ASCII.GetString: one character per byte, '?' for a byte outside ASCII. */
  function AsciiDecoded(bytes: seq<byte>): (r: string)
    ensures |r| == |bytes|
    ensures forall i :: 0 <= i < |bytes| ==> r[i] == if bytes[i] < 0x80 then bytes[i] as char else '?'
  {
    seq(|bytes|, i requires 0 <= i < |bytes| => if bytes[i] < 0x80 then bytes[i] as char else '?')
  }

  /** A string with every character outside ASCII replaced by '?'. */
  function AsciiFolded(s: string): string
  {
    seq(|s|, i requires 0 <= i < |s| => if (s[i] as int) < 0x80 then s[i] else '?')
  }

  /** `n` NUL characters: what ASCII decoding makes of a cleared buffer. */
  function NulChars(n: nat): string
  {
    seq(n, _ => 0 as char)
  }

  /** The serialisers, named after their column definitions.  Each carries the flags
   *  it was given; it reports them masked. */
  datatype Codec =
    | TinyIntColumn(requestedFlags: ColumnFlags.Flags)
    | BitColumn(requestedFlags: ColumnFlags.Flags)
    | SmallIntColumn(requestedFlags: ColumnFlags.Flags)
    | SinglePrecisionColumn(requestedFlags: ColumnFlags.Flags)
    | DoublePrecisionColumn(requestedFlags: ColumnFlags.Flags)
    | UniqueIdentifierColumn(requestedFlags: ColumnFlags.Flags)
    | TimeColumn(requestedFlags: ColumnFlags.Flags)
    | DateTimeColumn(requestedFlags: ColumnFlags.Flags)
    | DateTimeOffsetColumn(requestedFlags: ColumnFlags.Flags)
    | DecimalColumn(requestedFlags: ColumnFlags.Flags, digitCount: int, bufferSize: int)
    | FixedLengthBytesColumn(requestedFlags: ColumnFlags.Flags, length: int)
    | FixedLengthANSIStringColumn(requestedFlags: ColumnFlags.Flags, length: int)
    | VariableLengthBytesColumn(requestedFlags: ColumnFlags.Flags)
    | VariableLengthStringColumn(requestedFlags: ColumnFlags.Flags)
  {
    /** What the constructors establish: a positive fixed length, and a decimal packer
     *  of whole words whose buffer could be allocated. */
    predicate Valid()
    {
      match this
      case DecimalColumn(_, _, size) => size % 4 == 0 && 0 <= size < 0x8000_0000
      case FixedLengthBytesColumn(_, n) => 0 < n < 0x8000_0000
      case FixedLengthANSIStringColumn(_, n) => 0 < n < 0x8000_0000
      case _ => true
    }

    /** Flags: `flags & AbsentWhenNull`. */
    function Flags(): ColumnFlags.Flags
    {
      ColumnFlags.Masked(requestedFlags)
    }

    function DataType(): ColumnDataType.Tag
    {
      match this
      case TinyIntColumn(_) => ColumnDataType.UnsignedInteger
      case BitColumn(_) => ColumnDataType.UnsignedInteger
      case SmallIntColumn(_) => ColumnDataType.SignedInteger
      case SinglePrecisionColumn(_) => ColumnDataType.FloatingPoint
      case DoublePrecisionColumn(_) => ColumnDataType.FloatingPoint
      case UniqueIdentifierColumn(_) => ColumnDataType.Guid
      case TimeColumn(_) => ColumnDataType.Time
      case DateTimeColumn(_) => ColumnDataType.DateTime
      case DateTimeOffsetColumn(_) => ColumnDataType.DateTimeOffset
      case DecimalColumn(_, _, _) => ColumnDataType.DecimalFloatingPoint
      case FixedLengthBytesColumn(_, _) => ColumnDataType.FixedLengthBytes
      case FixedLengthANSIStringColumn(_, _) => ColumnDataType.FixedLengthString
      case VariableLengthBytesColumn(_) => ColumnDataType.VariableLengthBytes
      case VariableLengthStringColumn(_) => ColumnDataType.String
    }

    /** Length: the stored size of a fixed-length field, -1 for a variable one. */
    function Length(): int
    {
      match this
      case TinyIntColumn(_) => 1
      case BitColumn(_) => 1
      case SmallIntColumn(_) => 2
      case SinglePrecisionColumn(_) => 4
      case DoublePrecisionColumn(_) => 8
      case UniqueIdentifierColumn(_) => 16
      case TimeColumn(_) => 8
      case DateTimeColumn(_) => 8
      case DateTimeOffsetColumn(_) => 12
      case DecimalColumn(_, _, size) => size
      case FixedLengthBytesColumn(_, n) => n
      case FixedLengthANSIStringColumn(_, n) => n
      case VariableLengthBytesColumn(_) => -1
      case VariableLengthStringColumn(_) => -1
    }

    /** The boundary Write pads to and Read skips to before the field. */
    function Alignment(): int
    {
      match this
      case TinyIntColumn(_) => 1
      case BitColumn(_) => 1
      case SmallIntColumn(_) => 2
      case UniqueIdentifierColumn(_) => 8
      case _ => 4
    }

    /** Serialisers whose field is a plain run of bytes: padding, then a fixed-size
     *  field read and written in one piece. */
    predicate Uniform()
    {
      SmallIntColumn? || SinglePrecisionColumn? || DoublePrecisionColumn? || UniqueIdentifierColumn?
      || TimeColumn? || DateTimeColumn? || DecimalColumn? || FixedLengthBytesColumn?
      || FixedLengthANSIStringColumn?
    }

    /** The alignment the field's own write and read check, after the padding. */
    function FieldAlignment(): int
    {
      match this
      case SmallIntColumn(_) => 2
      case UniqueIdentifierColumn(_) => 8
      case DecimalColumn(_, _, _) => 1
      case FixedLengthBytesColumn(_, _) => 1
      case FixedLengthANSIStringColumn(_, _) => 1
      case _ => 4
    }

    /** The value written for a null. */
    function NullPlaceholder(): Value
      requires Valid()
    {
      match this
      case TinyIntColumn(_) => ByteValue(0)
      case BitColumn(_) => BooleanValue(false)
      case SmallIntColumn(_) => Int16Value(0)
      case SinglePrecisionColumn(_) => SingleValue(0)
      case DoublePrecisionColumn(_) => DoubleValue(0)
      case UniqueIdentifierColumn(_) => GuidValue(Zeros(16))
      case TimeColumn(_) => TimeSpanValue(0)
      case DateTimeColumn(_) => DateTimeValue(0)
      case DateTimeOffsetColumn(_) => DateTimeOffsetValue(DateTimeOffset(0, 0))
      case DecimalColumn(_, _, _) => DecimalValue(DecimalZero)
      case FixedLengthBytesColumn(_, n) => ByteArrayValue(Zeros(n))
      case FixedLengthANSIStringColumn(_, n) => StringValue(NulChars(n))
      case VariableLengthBytesColumn(_) => ByteArrayValue([])
      case VariableLengthStringColumn(_) => StringValue("")
    }

    /** Serialisers whose Read consults the null map and returns null for a null field. */
    predicate NullsReadAsNull()
    {
      FixedLengthBytesColumn? || FixedLengthANSIStringColumn?
    }
  }

  type ValidCodec = c: Codec | c.Valid() witness TinyIntColumn(0)

  /** The precision a decimal serialiser's packer gives what it unpacks. */
  function UnpackedPrecision(digitCount: int, d: SqlDecimal): int
  {
    Max(d.scale, Min(digitCount, SqlDecimalPrecisionLimit))
  }

  // ---------------------------------------------------------------- construction

  /** SqlServerFixedLengthBytesColumn(length).GetSerialiser(). */
  function NewFixedLengthBytesColumn(length: int32, flags: ColumnFlags.Flags): (r: Result<ValidCodec>)
    ensures r.Failure? <==> length <= 0
    ensures r.Failure? ==> r.error == ArgumentOutOfRange
    ensures r.Success? ==> r.value.FixedLengthBytesColumn? && r.value.Length() == length && r.value.Flags() == ColumnFlags.Masked(flags)
  {
    if length <= 0 then Failure(ArgumentOutOfRange) else Success(FixedLengthBytesColumn(flags, length))
  }

  /** SqlServerFixedLengthANSIStringColumn(length).GetSerialiser(). */
  function NewFixedLengthANSIStringColumn(length: int32, flags: ColumnFlags.Flags): (r: Result<ValidCodec>)
    ensures r.Failure? <==> length <= 0
    ensures r.Failure? ==> r.error == ArgumentOutOfRange
    ensures r.Success? ==> r.value.FixedLengthANSIStringColumn? && r.value.Length() == length && r.value.Flags() == ColumnFlags.Masked(flags)
  {
    if length <= 0 then Failure(ArgumentOutOfRange) else Success(FixedLengthANSIStringColumn(flags, length))
  }

  /** SqlServerDecimalColumn(packer).GetSerialiser(), for a packer of `digitCount`
   *  digits in `bufferSize` bytes: a size that is not whole words is refused, and a
   *  negative size cannot be allocated as the serialiser's buffer. */
  function NewDecimalColumn(digitCount: int, bufferSize: int32, flags: ColumnFlags.Flags): (r: Result<ValidCodec>)
    ensures r.Failure? <==> bufferSize % 4 != 0 || bufferSize < 0
    ensures r.Failure? ==> r.error == if bufferSize % 4 != 0 then Argument else Overflow
    ensures r.Success? ==> r.value.DecimalColumn? && r.value.Length() == bufferSize && r.value.digitCount == digitCount
  {
    if bufferSize % 4 != 0 then Failure(Argument)
    else if bufferSize < 0 then Failure(Overflow)
    else Success(DecimalColumn(flags, digitCount, bufferSize))
  }

  // ---------------------------------------------------------------- field values

  /** `record.IsDBNull(i) ? NullPlaceholder : record.GetByte(i)`; a field of another
   *  type fails the cast. */
  function TinyIntField(v: Value): Result<byte>
  {
    match v
    case DBNull => Success(0)
    case ByteValue(b) => Success(b)
    case _ => Failure(InvalidCast)
  }

  /** A null is 0, a boolean 1 or 0. */
  function BitField(v: Value): Result<byte>
  {
    match v
    case DBNull => Success(0)
    case BooleanValue(b) => Success(if b then 1 else 0)
    case _ => Failure(InvalidCast)
  }

  /** The value a DateTimeOffset serialiser writes.  A DateTime field would be given the
   *  local time zone's offset, which belongs to the machine. */
  function DateTimeOffsetField(v: Value): Result<DateTimeOffset>
  {
    match v
    case DBNull => Success(DateTimeOffset(0, 0))
    case DateTimeOffsetValue(x) => Success(x)
    case DateTimeValue(_) => Failure(Unmodelled)
    case _ => Failure(InvalidCast)
  }

  /** `record[i] as byte[]`, checked only for a non-null field. */
  function VariableLengthBytesField(v: Value): Result<Buffer>
  {
    match v
    case DBNull => Success([])
    case ByteArrayValue(b) => Success(b)
    case _ => Failure(InvalidData)
  }

  /** `record.GetString(i) ?? ""`: a null field reads as a null string reference. */
  function StringField(v: Value): Result<string>
  {
    match v
    case DBNull => Success("")
    case StringValue(t) => Success(t)
    case _ => Failure(InvalidCast)
  }

  /** The UTF-8 bytes Serialiser.WriteString writes for a string field; GetBytes
   *  refuses a string whose encoding would not fit in a byte array. */
  function Utf8Field(v: Value): (r: Result<Buffer>)
    ensures r.Success? <==> StringField(v).Success? && |Utf8.Encode(StringField(v).value)| < 0x8000_0000
    ensures r.Success? ==> Utf8.Decode(r.value) == StringField(v).value
  {
    var t :- StringField(v);
    var b := Utf8.Encode(t);
    Utf8.DecodeEncode(t);
    if |b| < 0x8000_0000 then Success(b) else Failure(Argument)
  }

  /** The field value of a decimal serialiser. */
  function DecimalField(v: Value): Result<DotNetDecimal>
  {
    match v
    case DBNull => Success(DecimalZero)
    case DecimalValue(d) => Success(d)
    case _ => Failure(InvalidCast)
  }

  /** The bytes a uniform serialiser writes after its padding.  A fixed-length byte
   *  field copies the first `length` bytes of the value (IDataRecord.GetBytes) and
   *  fails if there were fewer; a fixed-length string must encode to exactly `length`
   *  bytes, a longer one overflowing the encoder's buffer. */
  function FieldBytes(c: ValidCodec, v: Value): (r: Result<seq<byte>>)
    requires c.Uniform()
    ensures r.Success? ==> |r.value| == c.Length()
  {
    match c
    case SmallIntColumn(_) =>
      (match v
       case DBNull => Success(Int16Bytes(0))
       case Int16Value(x) => Success(Int16Bytes(x))
       case _ => Failure(InvalidCast))
    case SinglePrecisionColumn(_) =>
      (match v
       case DBNull => Success(UInt32Bytes(0))
       case SingleValue(x) => Success(UInt32Bytes(x))
       case _ => Failure(InvalidCast))
    case DoublePrecisionColumn(_) =>
      (match v
       case DBNull => Success(UInt64Bytes(0))
       case DoubleValue(x) => Success(UInt64Bytes(x))
       case _ => Failure(InvalidCast))
    case UniqueIdentifierColumn(_) =>
      (match v
       case DBNull => Success(Zeros(16))
       case GuidValue(g) => Success(g)
       case _ => Failure(InvalidCast))
    case TimeColumn(_) =>
      (match v
       case DBNull => Success(Int64Bytes(0))
       case TimeSpanValue(t) => Success(Int64Bytes(t))
       case _ => Failure(InvalidCast))
    case DateTimeColumn(_) =>
      (match v
       case DBNull => Success(Int64Bytes(0))
       case DateTimeValue(b) => Success(Int64Bytes(b))
       case _ => Failure(InvalidCast))
    case DecimalColumn(_, _, size) =>
      var d :- DecimalField(v);
      PackedDecimal(size, size, ToSqlDecimal(d))
    case FixedLengthBytesColumn(_, n) =>
      (match v
       case DBNull => Success(Zeros(n))
       case ByteArrayValue(b) => if |b| < n then Failure(InvalidData) else Success(b[..n])
       case _ => Failure(InvalidCast))
    case FixedLengthANSIStringColumn(_, n) => AnsiField(v, n)
  }

  /** A fixed-length ANSI field of `n` bytes: zeros for a null, otherwise the ASCII
   *  bytes of a string of exactly `n` characters. */
  function AnsiField(v: Value, n: nat): (r: Result<seq<byte>>)
    ensures r.Success? ==> |r.value| == n
    ensures v.StringValue? ==> (r.Success? <==> |v.text| == n)
  {
    match v
    case DBNull => Success(Zeros(n))
    case StringValue(t) =>
      if |t| > n then Failure(Argument)
      else if |t| < n then Failure(InvalidData)
      else Success(AsciiEncoded(t))
    case _ => Failure(InvalidCast)
  }

  /** The value a uniform serialiser makes of its field's bytes.  A decimal that
   *  System.Decimal cannot hold fails the conversion. */
  function DecodeField(c: ValidCodec, bytes: seq<byte>, isNull: bool): Result<Value>
    requires c.Uniform() && |bytes| == c.Length()
  {
    match c
    case SmallIntColumn(_) => Success(Int16Value(Int16Of(bytes)))
    case SinglePrecisionColumn(_) => Success(SingleValue(UInt32Of(bytes)))
    case DoublePrecisionColumn(_) => Success(DoubleValue(UInt64Of(bytes)))
    case UniqueIdentifierColumn(_) => Success(GuidValue(bytes))
    case TimeColumn(_) => Success(TimeSpanValue(Int64Of(bytes)))
    case DateTimeColumn(_) => Success(DateTimeValue(Int64Of(bytes)))
    case DecimalColumn(_, digitCount, size) =>
      var s :- UnpackedDecimal(digitCount, size, bytes);
      var d :- FromSqlDecimal(s);
      Success(DecimalValue(d))
    case FixedLengthBytesColumn(_, _) => if isNull then Success(DBNull) else Success(ByteArrayValue(bytes))
    case FixedLengthANSIStringColumn(_, _) => if isNull then Success(DBNull) else Success(StringValue(AsciiDecoded(bytes)))
  }

  // ---------------------------------------------------------------- the layouts

  /** Write: the bytes a serialiser puts at absolute position `pos` for field value
   *  `v`, or the exception it throws first. */
  function Emit(c: ValidCodec, pos: nat, canWrite: bool, v: Value): (r: Result<seq<byte>>)
  {
    match c
    case TinyIntColumn(_) =>
      var b :- TinyIntField(v);
      EmitByte(canWrite, b)
    case BitColumn(_) =>
      var b :- BitField(v);
      EmitByte(canWrite, b)
    case DateTimeOffsetColumn(_) =>
      EmitPaddedDateTimeOffset(pos, canWrite, DateTimeOffsetField(v))
    case VariableLengthBytesColumn(_) =>
      var b :- VariableLengthBytesField(v);
      EmitPrefixed(pos, canWrite, Success(b))
    case VariableLengthStringColumn(_) =>
      EmitPrefixed(pos, canWrite, Utf8Field(v))
    case SmallIntColumn(_) | SinglePrecisionColumn(_) | DoublePrecisionColumn(_) | UniqueIdentifierColumn(_)
      | TimeColumn(_) | DateTimeColumn(_) | DecimalColumn(_, _, _) | FixedLengthBytesColumn(_, _)
      | FixedLengthANSIStringColumn(_, _) =>
      EmitUniform(c, pos, canWrite, v)
  }

  /** Padding to 4, then the DateTimeOffset of `field`. */
  function EmitPaddedDateTimeOffset(pos: nat, canWrite: bool, field: Result<DateTimeOffset>): (r: Result<seq<byte>>)
  {
    var pad :- EmitAlignment(pos, canWrite, 4);
    var x :- field;
    var e :- EmitDateTimeOffset(pos + |pad|, canWrite, x);
    Success(pad + e)
  }

  /** Write of a uniform serialiser: padding to its alignment, then the field's bytes,
   *  put where the field alignment allows. */
  function EmitUniform(c: ValidCodec, pos: nat, canWrite: bool, v: Value): (r: Result<seq<byte>>)
    requires c.Uniform()
  {
    EmitPadded(pos, canWrite, c.Alignment(), FieldBytes(c, v), c.FieldAlignment())
  }

  /** Padding to `alignment`, then the bytes of `field` (or the exception computing it
   *  threw), put where `fieldAlignment` allows. */
  function EmitPadded(pos: nat, canWrite: bool, alignment: int, field: Result<seq<byte>>, fieldAlignment: int): (r: Result<seq<byte>>)
  {
    var pad :- EmitAlignment(pos, canWrite, alignment);
    var bytes :- field;
    var e :- EmitFixed(pos + |pad|, canWrite, bytes, fieldAlignment);
    Success(pad + e)
  }

  /** Padding to 4, then the bytes of `field` with their length in front. */
  function EmitPrefixed(pos: nat, canWrite: bool, field: Result<Buffer>): (r: Result<seq<byte>>)
  {
    var pad :- EmitAlignment(pos, canWrite, 4);
    var bytes :- field;
    var e :- EmitBytes(pos + |pad|, canWrite, bytes);
    Success(pad + e)
  }

  /** Read: the field value a serialiser decodes through window `w` from `pos`, given
   *  the field's entry in the null map, and the position after it. */
  function Parse(c: ValidCodec, data: seq<byte>, w: Window, pos: nat, isNull: bool): (r: Result<Parsed<Value>>)
    requires Within(data, w, pos)
  {
    match c
    case TinyIntColumn(_) =>
      var b :- ParseByte(data, w, pos);
      Success(Parsed(ByteValue(b.value), b.next))
    case BitColumn(_) =>
      var b :- ParseByte(data, w, pos);
      Success(Parsed(BooleanValue(b.value != 0), b.next))
    case DateTimeOffsetColumn(_) =>
      var x :- ParsePaddedDateTimeOffset(data, w, pos);
      Success(Parsed(DateTimeOffsetValue(x.value), x.next))
    case VariableLengthBytesColumn(_) =>
      var b :- ParsePrefixed(data, w, pos);
      Success(Parsed(ByteArrayValue(b.value), b.next))
    case VariableLengthStringColumn(_) =>
      var t :- ParsePrefixed(data, w, pos);
      Success(Parsed(StringValue(Utf8.Decode(t.value)), t.next))
    case SmallIntColumn(_) | SinglePrecisionColumn(_) | DoublePrecisionColumn(_) | UniqueIdentifierColumn(_)
      | TimeColumn(_) | DateTimeColumn(_) | DecimalColumn(_, _, _) | FixedLengthBytesColumn(_, _)
      | FixedLengthANSIStringColumn(_, _) =>
      ParseUniform(c, data, w, pos, isNull)
  }

  /** Read of a uniform serialiser: skip to its alignment, then read the field's bytes
   *  where the field alignment allows, and decode them. */
  function ParseUniform(c: ValidCodec, data: seq<byte>, w: Window, pos: nat, isNull: bool): (r: Result<Parsed<Value>>)
    requires c.Uniform() && Within(data, w, pos)
  {
    var f :- ParsePadded(data, w, pos, c.Alignment(), c.Length(), c.FieldAlignment());
    match DecodeField(c, f.value, isNull)
    case Success(value) => Success(Parsed(value, f.next))
    case Failure(e) => Failure(e)
  }

  /** Skip to `alignment`, then read `count` bytes where `fieldAlignment` allows. */
  function ParsePadded(data: seq<byte>, w: Window, pos: nat, alignment: int, count: nat, fieldAlignment: int): (r: Result<Parsed<seq<byte>>>)
    requires Within(data, w, pos)
    ensures r.Success? ==> |r.value.value| == count
  {
    var a :- AlignReadAt(w, pos, alignment);
    ParseFixed(data, w, a.next, count, fieldAlignment)
  }

  /** Skip to 4, then read a DateTimeOffset. */
  function ParsePaddedDateTimeOffset(data: seq<byte>, w: Window, pos: nat): (r: Result<Parsed<DateTimeOffset>>)
    requires Within(data, w, pos)
  {
    var a :- AlignReadAt(w, pos, 4);
    ParseDateTimeOffset(data, w, a.next)
  }

  /** Skip to 4, then read length-prefixed bytes. */
  function ParsePrefixed(data: seq<byte>, w: Window, pos: nat): (r: Result<Parsed<Buffer>>)
    requires Within(data, w, pos)
  {
    var a :- AlignReadAt(w, pos, 4);
    var b :- ParseBytes(data, w, a.next);
    Success(Parsed(b.value, b.next))
  }

  // ---------------------------------------------------------------- what comes back

  /** A value that survives the trip: a decimal must have no more digits than the
   *  precision the reading packer gives it. */
  predicate Roundtrips(c: ValidCodec, v: Value)
  {
    c.DecimalColumn? && DecimalField(v).Success? ==>
      var d := DecimalField(v).value;
      var p := UnpackedPrecision(c.digitCount, ToSqlDecimal(d));
      1 <= p && d.magnitude < Pow(10, p)
  }

  /** What Read returns for a field Write wrote from `v`: null where the serialiser
   *  consults a set null map; otherwise the written value, the placeholder in place
   *  of a null, with a decimal zero always positive, a byte array cut to the field's
   *  length and a string's non-ASCII bytes read as '?'. */
  function ReadBack(c: ValidCodec, v: Value, isNull: bool): Value
  {
    if isNull && c.NullsReadAsNull() then DBNull
    else
      match c
      case DecimalColumn(_, _, _) =>
        (match DecimalField(v)
         case Success(d) => DecimalValue(d.(positive := d.positive || d.magnitude == 0))
         case Failure(_) => v)
      case FixedLengthBytesColumn(_, n) =>
        (match v
         case DBNull => ByteArrayValue(Zeros(n))
         case ByteArrayValue(b) => if |b| >= n then ByteArrayValue(b[..n]) else v
         case _ => v)
      case FixedLengthANSIStringColumn(_, n) =>
        (match v
         case DBNull => StringValue(NulChars(n))
         case StringValue(t) => StringValue(AsciiFolded(t))
         case _ => v)
      case _ => if v.DBNull? then c.NullPlaceholder() else v
  }

  // ---------------------------------------------------------------- the serialisers

  /** IColumnSerialiser.Write of field value `v` at the stream's position. */
  method Write(c: ValidCodec, s: Stream, v: Value) returns (r: Result<()>)
    modifies s
    ensures Emitted(r, Emit(c, old(s.pos), s.canWrite, v), old(s.data), old(s.pos), s.data, s.pos)
  {
    match c
    case TinyIntColumn(_) =>
      var b := TinyIntField(v);
      if b.Failure? {
        return Failure(b.error);
      }
      r := WriteByte(s, b.value);
    case BitColumn(_) =>
      var b := BitField(v);
      if b.Failure? {
        return Failure(b.error);
      }
      r := WriteByte(s, b.value);
    case DateTimeOffsetColumn(_) =>
      r := WritePaddedDateTimeOffset(s, DateTimeOffsetField(v));
    case VariableLengthBytesColumn(_) =>
      var b := VariableLengthBytesField(v);
      if b.Failure? {
        return Failure(b.error);
      }
      r := WritePrefixed(s, b);
    case VariableLengthStringColumn(_) =>
      r := WritePrefixed(s, Utf8Field(v));
    case DecimalColumn(_, _, _) =>
      // The packing touches no stream, so doing it before the padding is not observable.
      var field := PackField(c, v);
      r := WritePadded(s, 4, field, 1);
    case SmallIntColumn(_) | SinglePrecisionColumn(_) | DoublePrecisionColumn(_) | UniqueIdentifierColumn(_)
      | TimeColumn(_) | DateTimeColumn(_) | FixedLengthBytesColumn(_, _) | FixedLengthANSIStringColumn(_, _) =>
      r := WritePadded(s, c.Alignment(), FieldBytes(c, v), c.FieldAlignment());
  }

  /** AlignWrite to 4, then WriteDateTimeOffset of the field. */
  method WritePaddedDateTimeOffset(s: Stream, field: Result<DateTimeOffset>) returns (r: Result<()>)
    modifies s
    ensures Emitted(r, EmitPaddedDateTimeOffset(old(s.pos), s.canWrite, field), old(s.data), old(s.pos), s.data, s.pos)
  {
    r := AlignWrite(s, 4);
    if r.Failure? {
      return;
    }
    ghost var pad := EmitAlignment(old(s.pos), s.canWrite, 4).value;
    if field.Failure? {
      return Failure(field.error);
    }
    r := WriteDateTimeOffset(s, field.value);
    if r.Success? {
      SpliceSplice(old(s.data), old(s.pos), pad, EmitDateTimeOffset(old(s.pos) + |pad|, s.canWrite, field.value).value);
    }
  }

  /** AlignWrite, then the field's bytes with the field alignment's check. */
  method WritePadded(s: Stream, alignment: int, field: Result<seq<byte>>, fieldAlignment: int) returns (r: Result<()>)
    modifies s
    ensures Emitted(r, EmitPadded(old(s.pos), s.canWrite, alignment, field, fieldAlignment), old(s.data), old(s.pos), s.data, s.pos)
  {
    ghost var data0, pos0 := s.data, s.pos;
    r := AlignWrite(s, alignment);
    if r.Failure? {
      return;
    }
    if field.Failure? {
      return Failure(field.error);
    }
    ghost var pad := EmitAlignment(pos0, s.canWrite, alignment).value;
    ghost var mid, next := s.data, s.pos;
    r := WriteFixed(s, field.value, fieldAlignment);
    PaddedEmitted(r, data0, pos0, s.canWrite, alignment, field.value, fieldAlignment, pad, mid, next, s.data, s.pos);
  }

  /** WritePadded's two writes make up EmitPadded's bytes. */
  lemma PaddedEmitted(r: Result<()>, data0: seq<byte>, pos0: nat, canWrite: bool, alignment: int, bytes: seq<byte>,
                      fieldAlignment: int, pad: seq<byte>, mid: seq<byte>, next: nat, data: seq<byte>, pos: nat)
    requires EmitAlignment(pos0, canWrite, alignment) == Success(pad)
    requires mid == Splice(data0, pos0, pad) && next == pos0 + |pad|
    requires Emitted(r, EmitFixed(next, canWrite, bytes, fieldAlignment), mid, next, data, pos)
    ensures Emitted(r, EmitPadded(pos0, canWrite, alignment, Success(bytes), fieldAlignment), data0, pos0, data, pos)
  {
    var f := EmitFixed(next, canWrite, bytes, fieldAlignment);
    assert EmitPadded(pos0, canWrite, alignment, Success(bytes), fieldAlignment) ==
      if f.Success? then Success(pad + bytes) else Failure(f.error);
    if f.Success? {
      SpliceSplice(data0, pos0, pad, bytes);
    }
  }

  /** AlignWrite to 4, then WriteBytes of the field. */
  method WritePrefixed(s: Stream, field: Result<Buffer>) returns (r: Result<()>)
    modifies s
    ensures Emitted(r, EmitPrefixed(old(s.pos), s.canWrite, field), old(s.data), old(s.pos), s.data, s.pos)
  {
    r := AlignWrite(s, 4);
    if r.Failure? {
      return;
    }
    ghost var pad := EmitAlignment(old(s.pos), s.canWrite, 4).value;
    if field.Failure? {
      return Failure(field.error);
    }
    r := WriteBytes(s, field.value);
    if r.Success? {
      SpliceSplice(old(s.data), old(s.pos), pad, EmitBytes(old(s.pos) + |pad|, s.canWrite, field.value).value);
    }
  }

  /** A decimal serialiser's field is the packed form of the decimal. */
  lemma DecimalFieldSteps(c: ValidCodec, v: Value)
    requires c.DecimalColumn?
    ensures DecimalField(v).Failure? ==> FieldBytes(c, v) == Failure(DecimalField(v).error)
    ensures DecimalField(v).Success? ==> FieldBytes(c, v) == PackedDecimal(c.bufferSize, c.bufferSize, ToSqlDecimal(DecimalField(v).value))
  {
  }

  /** The decimal serialiser's packing of a field value, through a packer like the
   *  serialiser's and a buffer of the packer's size. */
  method PackField(c: ValidCodec, v: Value) returns (r: Result<seq<byte>>)
    requires c.DecimalColumn?
    ensures r == FieldBytes(c, v)
  {
    DecimalFieldSteps(c, v);
    var d := DecimalField(v);
    if d.Failure? {
      return Failure(d.error);
    }
    var packer := new DecimalPacker(c.digitCount, c.bufferSize);
    var buffer := packer.CreateBuffer();
    var packed := packer.Pack(ToSqlDecimal(d.value), buffer.value);
    if packed.Failure? {
      return Failure(packed.error);
    }
    return Success(buffer.value[..]);
  }

  /** IColumnSerialiser.Read of field `i` through window `w`, given the field's entry
   *  in the row's null map. */
  method Read(c: ValidCodec, s: Stream, w: Window, isNull: bool) returns (r: Result<Value>)
    requires s.Readable(w)
    modifies s`pos
    ensures s.Readable(w) && Agrees(r, Parse(c, s.data, w, old(s.pos), isNull), s.pos)
  {
    match c
    case TinyIntColumn(_) =>
      var b := ReadByte(s, w);
      if b.Failure? {
        return Failure(b.error);
      }
      return Success(ByteValue(b.value));
    case BitColumn(_) =>
      var b := ReadByte(s, w);
      if b.Failure? {
        return Failure(b.error);
      }
      return Success(BooleanValue(b.value != 0));
    case DateTimeOffsetColumn(_) =>
      var x := ReadPaddedDateTimeOffset(s, w);
      if x.Failure? {
        return Failure(x.error);
      }
      return Success(DateTimeOffsetValue(x.value));
    case VariableLengthBytesColumn(_) =>
      var b := ReadPrefixed(s, w);
      if b.Failure? {
        return Failure(b.error);
      }
      return Success(ByteArrayValue(b.value));
    case VariableLengthStringColumn(_) =>
      var t := ReadPrefixed(s, w);
      if t.Failure? {
        return Failure(t.error);
      }
      return Success(StringValue(Utf8.Decode(t.value)));
    case DecimalColumn(_, _, size) =>
      var f := ReadPadded(s, w, 4, size, 1);
      if f.Failure? {
        return Failure(f.error);
      }
      r := UnpackField(c, f.value, isNull);
    case SmallIntColumn(_) | SinglePrecisionColumn(_) | DoublePrecisionColumn(_) | UniqueIdentifierColumn(_)
      | TimeColumn(_) | DateTimeColumn(_) | FixedLengthBytesColumn(_, _) | FixedLengthANSIStringColumn(_, _) =>
      var f := ReadPadded(s, w, c.Alignment(), c.Length(), c.FieldAlignment());
      if f.Failure? {
        return Failure(f.error);
      }
      r := DecodeField(c, f.value, isNull);
  }

  /** AlignRead, then a read of `count` bytes with the field alignment's check. */
  method ReadPadded(s: Stream, w: Window, alignment: int, count: nat, fieldAlignment: int) returns (r: Result<seq<byte>>)
    requires s.Readable(w)
    modifies s`pos
    ensures s.Readable(w) && Agrees(r, ParsePadded(s.data, w, old(s.pos), alignment, count, fieldAlignment), s.pos)
  {
    var a := AlignRead(s, w, alignment);
    if a.Failure? {
      return Failure(a.error);
    }
    r := ReadFixed(s, w, count, fieldAlignment);
  }

  /** AlignRead to 4, then ReadDateTimeOffset. */
  method ReadPaddedDateTimeOffset(s: Stream, w: Window) returns (r: Result<DateTimeOffset>)
    requires s.Readable(w)
    modifies s`pos
    ensures s.Readable(w) && Agrees(r, ParsePaddedDateTimeOffset(s.data, w, old(s.pos)), s.pos)
  {
    var a := AlignRead(s, w, 4);
    if a.Failure? {
      return Failure(a.error);
    }
    r := ReadDateTimeOffset(s, w);
  }

  /** AlignRead to 4, then ReadBytes. */
  method ReadPrefixed(s: Stream, w: Window) returns (r: Result<Buffer>)
    requires s.Readable(w)
    modifies s`pos
    ensures s.Readable(w) && Agrees(r, ParsePrefixed(s.data, w, old(s.pos)), s.pos)
  {
    var a := AlignRead(s, w, 4);
    if a.Failure? {
      return Failure(a.error);
    }
    var b := ReadBytes(s, w);
    if b.Failure? {
      return Failure(b.error);
    }
    return Success(b.value);
  }

  /** The decimal serialiser's decoding: the bytes are unpacked by a packer like the
   *  serialiser's and the SqlDecimal converted to System.Decimal. */
  method UnpackField(c: ValidCodec, bytes: seq<byte>, isNull: bool) returns (r: Result<Value>)
    requires c.DecimalColumn? && |bytes| == c.Length()
    ensures r == DecodeField(c, bytes, isNull)
  {
    var packer := new DecimalPacker(c.digitCount, c.bufferSize);
    var buffer := new byte[c.bufferSize];
    forall i | 0 <= i < c.bufferSize {
      buffer[i] := bytes[i];
    }
    assert buffer[..] == bytes;
    var u := packer.Unpack(buffer);
    if u.Failure? {
      return Failure(u.error);
    }
    var d := FromSqlDecimal(u.value);
    if d.Failure? {
      return Failure(d.error);
    }
    return Success(DecimalValue(d.value));
  }

  // ---------------------------------------------------------------- round trips

  /** Reading a cleared ASCII buffer gives NUL characters. */
  lemma AsciiZeros(n: nat)
    ensures AsciiDecoded(Zeros(n)) == NulChars(n)
  {
  }

  /** Reading the ASCII bytes of a string gives it back with every character outside
   *  ASCII as '?'; an ASCII string comes back unchanged. */
  lemma AsciiRoundTrip(s: string)
    ensures AsciiDecoded(AsciiEncoded(s)) == AsciiFolded(s)
    ensures (forall i :: 0 <= i < |s| ==> (s[i] as int) < 0x80) ==> AsciiFolded(s) == s
  {
  }

  /** A uniform serialiser decodes the bytes of a field value into what it reads back. */
  lemma FieldRoundTrip(c: ValidCodec, v: Value, isNull: bool)
    requires c.Uniform() && FieldBytes(c, v).Success? && Roundtrips(c, v)
    ensures DecodeField(c, FieldBytes(c, v).value, isNull) == Success(ReadBack(c, v, isNull))
  {
    match c
    case SmallIntColumn(_) => SmallIntFieldRoundTrip(c, v, isNull);
    case SinglePrecisionColumn(_) => FloatingPointFieldRoundTrip(c, v, isNull);
    case DoublePrecisionColumn(_) => FloatingPointFieldRoundTrip(c, v, isNull);
    case UniqueIdentifierColumn(_) => GuidFieldRoundTrip(c, v, isNull);
    case TimeColumn(_) => TimeFieldRoundTrip(c, v, isNull);
    case DateTimeColumn(_) => TimeFieldRoundTrip(c, v, isNull);
    case DecimalColumn(_, _, _) => DecimalFieldRoundTrip(c, v, isNull);
    case FixedLengthBytesColumn(_, _) => FixedLengthFieldRoundTrip(c, v, isNull);
    case FixedLengthANSIStringColumn(_, _) => FixedLengthFieldRoundTrip(c, v, isNull);
  }

  lemma SmallIntFieldRoundTrip(c: ValidCodec, v: Value, isNull: bool)
    requires c.SmallIntColumn? && FieldBytes(c, v).Success?
    ensures DecodeField(c, FieldBytes(c, v).value, isNull) == Success(ReadBack(c, v, isNull))
  {
    Int16Codec(if v.DBNull? then 0 else v.short, FieldBytes(c, v).value);
  }

  lemma FloatingPointFieldRoundTrip(c: ValidCodec, v: Value, isNull: bool)
    requires (c.SinglePrecisionColumn? || c.DoublePrecisionColumn?) && FieldBytes(c, v).Success?
    ensures DecodeField(c, FieldBytes(c, v).value, isNull) == Success(ReadBack(c, v, isNull))
  {
    PowValues();
    if c.SinglePrecisionColumn? {
      UnsignedCodec(if v.DBNull? then 0 else v.singleBits, 4, FieldBytes(c, v).value);
    } else {
      UnsignedCodec(if v.DBNull? then 0 else v.doubleBits, 8, FieldBytes(c, v).value);
    }
  }

  lemma GuidFieldRoundTrip(c: ValidCodec, v: Value, isNull: bool)
    requires c.UniqueIdentifierColumn? && FieldBytes(c, v).Success?
    ensures DecodeField(c, FieldBytes(c, v).value, isNull) == Success(ReadBack(c, v, isNull))
  {
  }

  lemma TimeFieldRoundTrip(c: ValidCodec, v: Value, isNull: bool)
    requires (c.TimeColumn? || c.DateTimeColumn?) && FieldBytes(c, v).Success?
    ensures DecodeField(c, FieldBytes(c, v).value, isNull) == Success(ReadBack(c, v, isNull))
  {
    if c.TimeColumn? {
      Int64Codec(if v.DBNull? then 0 else v.ticks, FieldBytes(c, v).value);
    } else {
      Int64Codec(if v.DBNull? then 0 else v.binary, FieldBytes(c, v).value);
    }
  }

  /** The decimal comes back through the packer and SqlDecimal, with the reading
   *  packer's precision, which System.Decimal does not keep. */
  lemma DecimalFieldRoundTrip(c: ValidCodec, v: Value, isNull: bool)
    requires c.DecimalColumn? && FieldBytes(c, v).Success? && Roundtrips(c, v)
    ensures DecodeField(c, FieldBytes(c, v).value, isNull) == Success(ReadBack(c, v, isNull))
  {
    DecimalFieldSteps(c, v);
    var d := DecimalField(v).value;
    var q := ToSqlDecimal(d);
    var p := UnpackedPrecision(c.digitCount, q);
    PackUnpack(c.digitCount, c.bufferSize, q);
    var unpacked := q.(precision := p);
    assert UnpackedDecimal(c.digitCount, c.bufferSize, FieldBytes(c, v).value) == Success(unpacked);
    assert FromSqlDecimal(unpacked) == Success(d.(positive := d.positive || d.magnitude == 0));
  }

  lemma FixedLengthFieldRoundTrip(c: ValidCodec, v: Value, isNull: bool)
    requires (c.FixedLengthBytesColumn? || c.FixedLengthANSIStringColumn?) && FieldBytes(c, v).Success?
    ensures DecodeField(c, FieldBytes(c, v).value, isNull) == Success(ReadBack(c, v, isNull))
  {
    if c.FixedLengthANSIStringColumn? {
      if v.StringValue? {
        AsciiRoundTrip(v.text);
      } else {
        AsciiZeros(c.length);
      }
    }
  }

  /** Write then Read: through a window starting on an 8-byte boundary, the bytes a
   *  serialiser wrote at `at` read back, from `at`, as `ReadBack` says, and the read
   *  ends where the write ended. */
  lemma RoundTrip(c: ValidCodec, data: seq<byte>, w: Window, at: nat, canWrite: bool, v: Value, isNull: bool)
    requires Emit(c, at, canWrite, v).Success? && Roundtrips(c, v)
    requires w.start % 8 == 0 && w.start <= at
    requires var bytes := Emit(c, at, canWrite, v).value;
      at + |bytes| <= w.End() <= |data| && data[at..at + |bytes|] == bytes
    ensures Parse(c, data, w, at, isNull) == Success(Parsed(ReadBack(c, v, isNull), at + |Emit(c, at, canWrite, v).value|))
  {
    if c.Uniform() {
      UniformCaseRoundTrip(c, data, w, at, canWrite, v, isNull);
    } else {
      match c
      case TinyIntColumn(_) => ByteRoundTrip(c, data, w, at, canWrite, v, isNull);
      case BitColumn(_) => ByteRoundTrip(c, data, w, at, canWrite, v, isNull);
      case DateTimeOffsetColumn(_) => DateTimeOffsetFieldRoundTrip(c, data, w, at, canWrite, v, isNull);
      case VariableLengthBytesColumn(_) => VariableLengthRoundTrip(c, data, w, at, canWrite, v, isNull);
      case VariableLengthStringColumn(_) => VariableLengthRoundTrip(c, data, w, at, canWrite, v, isNull);
    }
  }

  /** RoundTrip for the uniform serialisers, whose Write and Read are the uniform
   *  layout. */
  lemma UniformCaseRoundTrip(c: ValidCodec, data: seq<byte>, w: Window, at: nat, canWrite: bool, v: Value, isNull: bool)
    requires c.Uniform() && Emit(c, at, canWrite, v).Success? && Roundtrips(c, v)
    requires w.start % 8 == 0 && w.start <= at
    requires var bytes := Emit(c, at, canWrite, v).value;
      at + |bytes| <= w.End() <= |data| && data[at..at + |bytes|] == bytes
    ensures Parse(c, data, w, at, isNull) == Success(Parsed(ReadBack(c, v, isNull), at + |Emit(c, at, canWrite, v).value|))
  {
    assert Emit(c, at, canWrite, v) == EmitUniform(c, at, canWrite, v);
    assert Parse(c, data, w, at, isNull) == ParseUniform(c, data, w, at, isNull);
    UniformRoundTrip(c, data, w, at, canWrite, v, isNull);
  }

  lemma ByteRoundTrip(c: ValidCodec, data: seq<byte>, w: Window, at: nat, canWrite: bool, v: Value, isNull: bool)
    requires (c.TinyIntColumn? || c.BitColumn?) && Emit(c, at, canWrite, v).Success?
    requires w.start <= at
    requires var bytes := Emit(c, at, canWrite, v).value;
      at + |bytes| <= w.End() <= |data| && data[at..at + |bytes|] == bytes
    ensures Parse(c, data, w, at, isNull) == Success(Parsed(ReadBack(c, v, isNull), at + |Emit(c, at, canWrite, v).value|))
  {
    assert data[at] == Emit(c, at, canWrite, v).value[0];
  }

  lemma VariableLengthRoundTrip(c: ValidCodec, data: seq<byte>, w: Window, at: nat, canWrite: bool, v: Value, isNull: bool)
    requires (c.VariableLengthBytesColumn? || c.VariableLengthStringColumn?) && Emit(c, at, canWrite, v).Success?
    requires w.start % 8 == 0 && w.start <= at
    requires var bytes := Emit(c, at, canWrite, v).value;
      at + |bytes| <= w.End() <= |data| && data[at..at + |bytes|] == bytes
    ensures Parse(c, data, w, at, isNull) == Success(Parsed(ReadBack(c, v, isNull), at + |Emit(c, at, canWrite, v).value|))
  {
    var b := if c.VariableLengthBytesColumn? then VariableLengthBytesField(v) else Utf8Field(v);
    assert Emit(c, at, canWrite, v) == EmitPrefixed(at, canWrite, b);
    PrefixedRoundTrip(data, w, at, canWrite, b.value);
  }

  /** A string field's bytes are decoded on reading: the ill-formed byte FF reads as
   *  U+FFFD, not as the byte written. */
  lemma MalformedStringReadsAsReplacement(c: ValidCodec)
    requires c.VariableLengthStringColumn?
    ensures Parse(c, [1, 0, 0, 0, 0xFF], Window(0, 5), 0, false) == Success(Parsed(StringValue([Utf8.ReplacementCharacter]), 5))
  {
    StrayBytePrefixed();
    PrefixedRoundTrip([1, 0, 0, 0, 0xFF], Window(0, 5), 0, true, [0xFF]);
    Utf8.DecodeStrayByte(0xFF);
  }

  /** The prefixed layout of the one byte FF at position 0. */
  lemma StrayBytePrefixed()
    ensures EmitPrefixed(0, true, Success([0xFF])) == Success([1, 0, 0, 0, 0xFF])
  {
    var data: seq<byte> := [1, 0, 0, 0, 0xFF];
    assert ToLE(0, 2) == [0, 0];
    assert Int32Bytes(1) == [1, 0, 0, 0];
    var ff: seq<byte> := [0xFF];
    assert EmitFixed(0, true, Int32Bytes(|ff|), 4) == Success([1, 0, 0, 0]);
    assert Int32Bytes(|ff|) + ff == data;
    assert EmitBytes(0, true, ff) == Success(data);
    var none: seq<byte> := [];
    assert EmitAlignment(0, true, 4) == Success(none) && none + data == data;
  }

  lemma UniformRoundTrip(c: ValidCodec, data: seq<byte>, w: Window, at: nat, canWrite: bool, v: Value, isNull: bool)
    requires c.Uniform() && EmitUniform(c, at, canWrite, v).Success? && Roundtrips(c, v)
    requires w.start % 8 == 0 && w.start <= at
    requires var bytes := EmitUniform(c, at, canWrite, v).value;
      at + |bytes| <= w.End() <= |data| && data[at..at + |bytes|] == bytes
    ensures ParseUniform(c, data, w, at, isNull) == Success(Parsed(ReadBack(c, v, isNull), at + |EmitUniform(c, at, canWrite, v).value|))
  {
    UniformFieldRoundTrip(c, data, w, at, canWrite, v);
    FieldRoundTrip(c, v, isNull);
    var f := Parsed(FieldBytes(c, v).value, at + |EmitUniform(c, at, canWrite, v).value|);
    UniformParsed(c, data, w, at, isNull, f, ReadBack(c, v, isNull));
  }

  /** ParseUniform from what its field read and its decoding give. */
  lemma UniformParsed(c: ValidCodec, data: seq<byte>, w: Window, at: nat, isNull: bool, f: Parsed<seq<byte>>, value: Value)
    requires c.Uniform() && Within(data, w, at)
    requires ParsePadded(data, w, at, c.Alignment(), c.Length(), c.FieldAlignment()) == Success(f)
    requires DecodeField(c, f.value, isNull) == Success(value)
    ensures ParseUniform(c, data, w, at, isNull) == Success(Parsed(value, f.next))
  {
  }

  /** The field's bytes of a uniform serialiser read back as written. */
  lemma UniformFieldRoundTrip(c: ValidCodec, data: seq<byte>, w: Window, at: nat, canWrite: bool, v: Value)
    requires c.Uniform() && EmitUniform(c, at, canWrite, v).Success?
    requires w.start % 8 == 0 && w.start <= at
    requires var bytes := EmitUniform(c, at, canWrite, v).value;
      at + |bytes| <= w.End() <= |data| && data[at..at + |bytes|] == bytes
    ensures FieldBytes(c, v).Success?
    ensures ParsePadded(data, w, at, c.Alignment(), c.Length(), c.FieldAlignment()) ==
      Success(Parsed(FieldBytes(c, v).value, at + |EmitUniform(c, at, canWrite, v).value|))
  {
    var bytes := FieldBytes(c, v).value;
    assert FieldBytes(c, v) == Success(bytes) && |bytes| == c.Length();
    var e := EmitUniform(c, at, canWrite, v).value;
    assert EmitPadded(at, canWrite, c.Alignment(), Success(bytes), c.FieldAlignment()) == Success(e);
    PaddedRoundTrip(data, w, at, canWrite, c.Alignment(), bytes, c.FieldAlignment());
  }

  /** The bytes after a prefix of a slice. */
  lemma SliceAfter(data: seq<byte>, at: nat, pad: seq<byte>, e: seq<byte>)
    requires at + |pad| + |e| <= |data| && data[at..at + |pad| + |e|] == pad + e
    ensures data[at + |pad|..at + |pad| + |e|] == e
  {
    assert data[at + |pad|..at + |pad| + |e|] == data[at..at + |pad| + |e|][|pad|..];
  }

  lemma DateTimeOffsetFieldRoundTrip(c: ValidCodec, data: seq<byte>, w: Window, at: nat, canWrite: bool, v: Value, isNull: bool)
    requires c.DateTimeOffsetColumn? && Emit(c, at, canWrite, v).Success?
    requires w.start % 8 == 0 && w.start <= at
    requires var bytes := Emit(c, at, canWrite, v).value;
      at + |bytes| <= w.End() <= |data| && data[at..at + |bytes|] == bytes
    ensures Parse(c, data, w, at, isNull) == Success(Parsed(ReadBack(c, v, isNull), at + |Emit(c, at, canWrite, v).value|))
  {
    var x := DateTimeOffsetField(v).value;
    DateTimeOffsetReadBack(c, v, isNull);
    assert Emit(c, at, canWrite, v) == EmitPaddedDateTimeOffset(at, canWrite, Success(x));
    PaddedDateTimeOffsetRoundTrip(data, w, at, canWrite, x);
  }

  /** A DateTimeOffset column reads back the value it was given, a null as the
   *  zero offset. */
  lemma DateTimeOffsetReadBack(c: ValidCodec, v: Value, isNull: bool)
    requires c.DateTimeOffsetColumn? && DateTimeOffsetField(v).Success?
    ensures ReadBack(c, v, isNull) == DateTimeOffsetValue(DateTimeOffsetField(v).value)
  {
  }

  /** A padded DateTimeOffset reads back as written. */
  lemma PaddedDateTimeOffsetRoundTrip(data: seq<byte>, w: Window, at: nat, canWrite: bool, x: DateTimeOffset)
    requires EmitPaddedDateTimeOffset(at, canWrite, Success(x)).Success?
    requires w.start % 8 == 0 && w.start <= at
    requires var e := EmitPaddedDateTimeOffset(at, canWrite, Success(x)).value;
      at + |e| <= w.End() <= |data| && data[at..at + |e|] == e
    ensures var e := EmitPaddedDateTimeOffset(at, canWrite, Success(x)).value;
      ParsePaddedDateTimeOffset(data, w, at) == Success(Parsed(x, at + |e|))
  {
    var pad := EmitAlignment(at, canWrite, 4).value;
    var e := EmitDateTimeOffset(at + |pad|, canWrite, x).value;
    AlignmentRoundTrip(w, at, canWrite, 4);
    var next := at + |pad|;
    SliceAfter(data, at, pad, e);
    RelativeAlignment(next, w.start, 4);
    DateTimeOffsetRoundTrip(data, w, next, canWrite, x);
  }

  /** Padded fixed-size bytes read back as written. */
  lemma PaddedRoundTrip(data: seq<byte>, w: Window, at: nat, canWrite: bool, alignment: int, bytes: seq<byte>, fieldAlignment: int)
    requires EmitPadded(at, canWrite, alignment, Success(bytes), fieldAlignment).Success?
    requires alignment in {1, 2, 4, 8} && fieldAlignment in {1, 2, 4, 8}
    requires w.start % 8 == 0 && w.start <= at
    requires var e := EmitPadded(at, canWrite, alignment, Success(bytes), fieldAlignment).value;
      at + |e| <= w.End() <= |data| && data[at..at + |e|] == e
    ensures var e := EmitPadded(at, canWrite, alignment, Success(bytes), fieldAlignment).value;
      ParsePadded(data, w, at, alignment, |bytes|, fieldAlignment) == Success(Parsed(bytes, at + |e|))
  {
    var pad := EmitAlignment(at, canWrite, alignment).value;
    AlignmentRoundTrip(w, at, canWrite, alignment);
    var next := at + |pad|;
    SliceAfter(data, at, pad, bytes);
    RelativeAlignment(next, w.start, fieldAlignment);
    FixedRoundTrip(data, w, next, canWrite, bytes, fieldAlignment);
  }

  /** Padded length-prefixed bytes read back as written. */
  lemma PrefixedRoundTrip(data: seq<byte>, w: Window, at: nat, canWrite: bool, bytes: Buffer)
    requires EmitPrefixed(at, canWrite, Success(bytes)).Success?
    requires w.start % 8 == 0 && w.start <= at
    requires var e := EmitPrefixed(at, canWrite, Success(bytes)).value;
      at + |e| <= w.End() <= |data| && data[at..at + |e|] == e
    ensures var e := EmitPrefixed(at, canWrite, Success(bytes)).value;
      ParsePrefixed(data, w, at) == Success(Parsed(bytes, at + |e|))
  {
    var pad := EmitAlignment(at, canWrite, 4).value;
    var next := at + |pad|;
    var e := EmitBytes(next, canWrite, bytes).value;
    AlignmentRoundTrip(w, at, canWrite, 4);
    PrefixedBytesRead(data, w, at, next, canWrite, pad, e, bytes);
  }

  /** The bytes after the padding of a prefixed field read back as written. */
  lemma PrefixedBytesRead(data: seq<byte>, w: Window, at: nat, next: nat, canWrite: bool, pad: seq<byte>, e: seq<byte>, bytes: Buffer)
    requires next == at + |pad| && w.start % 8 == 0 && w.start <= at
    requires EmitBytes(next, canWrite, bytes) == Success(e)
    requires next + |e| <= w.End() <= |data| && data[at..next + |e|] == pad + e
    ensures ParseBytes(data, w, next) == Success(Parsed(bytes, next + |e|))
  {
    SliceAfter(data, at, pad, e);
    RelativeAlignment(next, w.start, 4);
    BytesRoundTrip(data, w, next, canWrite, bytes);
  }
}
