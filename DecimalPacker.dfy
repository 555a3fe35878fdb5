/** DecimalPacker: SQL Server decimals stored as a little-endian two's-complement
 *  significand of an arbitrary number of bytes followed by one exponent byte (the
 *  negated scale), the packed form of a `decimal(p, s)` column.  The packer's
 *  buffer size is a multiple of four bytes, derived from a digit count or given. */
module DecimalPacking {
  import opened Wrappers
  import opened Bytes
  import opened Streams
  import opened BufferUtils

  /** SqlDecimal holds a 128-bit magnitude and at most 38 digits. */
  const SqlDecimalByteCount := 16
  const SqlDecimalPrecisionLimit := 38
  /** 2^128, the modulus of the SqlDecimal magnitude. */
  const MagnitudeModulus: nat := 0x1_0000_0000_0000_0000_0000_0000_0000_0000

  // ---------------------------------------------------------------- SqlDecimal

  /** System.Data.SqlTypes.SqlDecimal: a precision, a scale, a sign and the
   *  magnitude its four data words (`BinData`, 16 little-endian bytes) hold. */
  datatype SqlDecimal = SqlDecimal(precision: nat, scale: nat, positive: bool, magnitude: nat)
  {
    /** What the SqlDecimal constructor guarantees of every value it builds: a
     *  precision of 1 to 38, a scale within it, no more digits than the precision,
     *  and zero always positive. */
    predicate Valid()
    {
      1 <= precision <= SqlDecimalPrecisionLimit && scale <= precision
      && magnitude < Pow(10, precision) && (magnitude == 0 ==> positive)
    }

    /** The signed value scaled by 10^scale. */
    function Signed(): int
    {
      if positive then magnitude else -(magnitude as int)
    }
  }

  /** `new SqlDecimal(precision, scale, positive, data)`: an invalid precision or scale
   *  throws SqlTypeException, a magnitude with more digits than the precision throws
   *  OverflowException, and a zero is made positive. */
  function NewSqlDecimal(precision: int, scale: int, positive: bool, magnitude: nat): (r: Result<SqlDecimal>)
    ensures r.Success? <==> 1 <= precision <= SqlDecimalPrecisionLimit && 0 <= scale <= precision && magnitude < Pow(10, precision)
    ensures r.Failure? ==> r.error == (if 1 <= precision <= SqlDecimalPrecisionLimit && 0 <= scale <= precision then Overflow else SqlType)
    ensures r.Success? ==> r.value.Valid() && r.value.precision == precision && r.value.scale == scale
    ensures r.Success? ==> r.value.magnitude == magnitude && r.value.positive == (positive || magnitude == 0)
  {
    if precision < 1 || precision > SqlDecimalPrecisionLimit || scale < 0 || scale > precision then Failure(SqlType)
    else if magnitude >= Pow(10, precision) then Failure(Overflow)
    else Success(SqlDecimal(precision, scale, positive || magnitude == 0, magnitude))
  }

  /** 10^38 fits in 127 bits, so every SqlDecimal magnitude is also a non-negative
   *  16-byte two's-complement value. */
  lemma MaxMagnitudeFits()
    ensures Pow(10, SqlDecimalPrecisionLimit) < 0x80 * Pow(0x100, 15)
  {
    assert Pow(10, 8) == 100000000;
    assert Pow(10, 16) == 10000000000000000 by { PowAdd(10, 8, 8); }
    assert Pow(10, 32) == 100000000000000000000000000000000 by { PowAdd(10, 16, 16); }
    assert Pow(10, 6) == 1000000;
    assert Pow(10, 38) == 100000000000000000000000000000000000000 by { PowAdd(10, 32, 6); }
    PowValues();
    assert Pow(0x100, 15) == 0x1000000000000000000000000000000;
  }

  lemma MagnitudeModulusValue()
    ensures 0x80 * Pow(0x100, 15) < MagnitudeModulus == Pow(0x100, SqlDecimalByteCount)
  {
    PowValues();
  }

  lemma {:induction false} PowMonotone(b: nat, m: nat, n: nat)
    requires b > 0 && m <= n
    ensures Pow(b, m) <= Pow(b, n)
  {
    if m < n {
      PowMonotone(b, m, n - 1);
      MulMonotone(Pow(b, n - 1), 1, b);
    }
  }

  lemma ValidMagnitudeFits(d: SqlDecimal)
    requires d.Valid()
    ensures d.magnitude < 0x80 * Pow(0x100, 15) && InSignedRange(d.Signed(), SqlDecimalByteCount)
  {
    var m, h := d.magnitude, 0x80 * Pow(0x100, 15);
    assert m < Pow(10, d.precision);
    PowMonotone(10, d.precision, SqlDecimalPrecisionLimit);
    MaxMagnitudeFits();
    assert m < h;
    assert -h <= d.Signed() < h;
  }

  // ---------------------------------------------------------------- sizing

  /** The number of bits of `v` (none for zero). */
  function BitLength(v: nat): nat
  {
    if v == 0 then 0 else 1 + BitLength(v / 2)
  }

  /** The number of decimal digits of `v` (none for zero). */
  function DecimalDigits(v: nat): nat
  {
    if v == 0 then 0 else 1 + DecimalDigits(v / 10)
  }

  /** `v` has exactly `BitLength(v)` bits: it lies below 2^BitLength and, unless it
   *  is zero, at or above 2^(BitLength - 1). */
  lemma {:induction false} BitLengthBounds(v: nat)
    ensures v < Pow(2, BitLength(v))
    ensures v > 0 ==> Pow(2, BitLength(v) - 1) <= v
  {
    if v > 0 {
      BitLengthBounds(v / 2);
      var k := BitLength(v / 2);
      assert Pow(2, k + 1) == 2 * Pow(2, k);
      if k > 0 {
        assert Pow(2, k) == 2 * Pow(2, k - 1);
      }
    }
  }

  lemma {:induction false} DecimalDigitsBounds(v: nat)
    ensures v < Pow(10, DecimalDigits(v))
    ensures v > 0 ==> Pow(10, DecimalDigits(v) - 1) <= v
  {
    if v > 0 {
      DecimalDigitsBounds(v / 10);
      var k := DecimalDigits(v / 10);
      assert Pow(10, k + 1) == 10 * Pow(10, k);
      if k > 0 {
        assert Pow(10, k) == 10 * Pow(10, k - 1);
      }
    }
  }

  /** A number lying between 2^(k-1) and 2^k has `k` bits. */
  lemma {:induction false} BitLengthExactly(v: nat, k: nat)
    requires k > 0 && Pow(2, k - 1) <= v < Pow(2, k)
    ensures BitLength(v) == k
  {
    assert Pow(2, k) == 2 * Pow(2, k - 1);
    if k > 1 {
      assert Pow(2, k - 1) == 2 * Pow(2, k - 2);
      BitLengthExactly(v / 2, k - 1);
    }
  }

  /** A number lying between 10^(k-1) and 10^k has `k` digits. */
  lemma {:induction false} DecimalDigitsExactly(v: nat, k: nat)
    requires k > 0 && Pow(10, k - 1) <= v < Pow(10, k)
    ensures DecimalDigits(v) == k
  {
    assert Pow(10, k) == 10 * Pow(10, k - 1);
    if k > 1 {
      assert Pow(10, k - 1) == 10 * Pow(10, k - 2);
      DecimalDigitsExactly(v / 10, k - 1);
    }
  }

  /** C#'s integer division, which truncates toward zero. */
  function TruncDiv(a: int, b: int): int
    requires b > 0
  {
    if a >= 0 then a / b else -((-a) / b)
  }

  /** GetNumberOfBitsForUnsignedIntegersOfLength: ceiling(digitCount * log2 10), the
   *  number of bits of the largest `digitCount`-digit number; negative digit counts
   *  give minus the floor of |digitCount| * log2 10. */
  function BitsForUnsigned(digitCount: int): int
  {
    if digitCount >= 0 then BitLength(Pow(10, digitCount) - 1)
    else 1 - BitLength(Pow(10, -digitCount))
  }

  /** GetNumberOfBitsForSignedIntegersOfLength: one more bit for the sign. */
  function BitsForSigned(digitCount: int): int
  {
    BitsForUnsigned(digitCount) + 1
  }

  /** GetByteBufferSize: the signed significand and an eight-bit exponent, rounded up
   *  to whole 32-bit words. */
  function ByteBufferSize(digitCount: int): (r: int)
    ensures r % 4 == 0
  {
    4 * (1 + TruncDiv(BitsForSigned(digitCount) + 8 - 1, 32))
  }

  /** GetDigitCount: ceiling((8 * bufferSize - 10) * log10 2), the decimal digits of
   *  the largest number of 8 * bufferSize - 10 bits. */
  function DigitCountOfBuffer(bufferSize: int): int
  {
    var bits := bufferSize * 8 - 8 - 1 - 1;
    if bits >= 0 then DecimalDigits(Pow(2, bits) - 1)
    else 1 - DecimalDigits(Pow(2, -bits))
  }

  /** The unsigned bit count is the least `b` with 2^b >= 10^digitCount. */
  lemma BitsForUnsignedIsCeiling(digitCount: nat)
    ensures Pow(10, digitCount) <= Pow(2, BitsForUnsigned(digitCount))
    ensures BitsForUnsigned(digitCount) > 0 ==> Pow(2, BitsForUnsigned(digitCount) - 1) < Pow(10, digitCount)
  {
    BitLengthBounds(Pow(10, digitCount) - 1);
  }

  /** The signed bit count is the least `b` whose range -2^(b-1) .. 2^(b-1) - 1 holds
   *  every integer of `digitCount` digits, that is the largest one, 10^digitCount - 1. */
  lemma BitsForSignedHoldsDigits(digitCount: nat)
    requires digitCount >= 1
    ensures var b := BitsForSigned(digitCount);
      b >= 2 && Pow(10, digitCount) - 1 < Pow(2, b - 1) && Pow(2, b - 2) <= Pow(10, digitCount) - 1
  {
    var v := Pow(10, digitCount) - 1;
    assert v >= 9 by {
      PowMonotone(10, 1, digitCount);
    }
    BitLengthBounds(v);
  }

  /** The digit count of a buffer is the least `k` with 10^k >= 2^(8 * bufferSize - 10). */
  lemma DigitCountIsCeiling(bufferSize: int)
    requires bufferSize >= 2
    ensures Pow(2, 8 * bufferSize - 10) <= Pow(10, DigitCountOfBuffer(bufferSize))
    ensures DigitCountOfBuffer(bufferSize) > 0 ==> Pow(10, DigitCountOfBuffer(bufferSize) - 1) < Pow(2, 8 * bufferSize - 10)
  {
    DecimalDigitsBounds(Pow(2, 8 * bufferSize - 10) - 1);
  }

  lemma {:induction false} PowBits(k: nat)
    ensures Pow(2, 8 * k) == Pow(0x100, k)
  {
    if k > 0 {
      PowBits(k - 1);
      PowAdd(2, 8, 8 * (k - 1));
      assert 8 * (k - 1) + 8 == 8 * k;
    }
  }

  /** The buffer for `digitCount` digits has a word or more, and room in its
   *  significand for the unsigned bits, one sign bit and more. */
  lemma BufferBitsRoom(digitCount: nat)
    ensures ByteBufferSize(digitCount) >= 4
    ensures BitsForUnsigned(digitCount) <= 8 * ByteBufferSize(digitCount) - 9
  {
    var b := BitsForUnsigned(digitCount);
    var q := (b + 1 + 7) / 32;
    var size := ByteBufferSize(digitCount);
    assert size == 4 * (1 + q);
    assert b + 8 == 32 * q + (b + 8) % 32;
  }

  /** A buffer sized for `digitCount` digits leaves its significand room for every
   *  magnitude of that many digits, with the top bit clear for the sign. */
  lemma ByteBufferSizeHolds(digitCount: nat)
    ensures ByteBufferSize(digitCount) >= 4
    ensures Pow(10, digitCount) <= 0x80 * Pow(0x100, ByteBufferSize(digitCount) - 2)
  {
    var b := BitsForUnsigned(digitCount);
    var size := ByteBufferSize(digitCount);
    BufferBitsRoom(digitCount);
    BitsForUnsignedIsCeiling(digitCount);
    PowMonotone(2, b, 8 * size - 9);
    PowAdd(2, 7, 8 * (size - 2));
    PowBits(size - 2);
  }

  /** The arithmetic behind the next lemma: `b` is the bit ceiling of 10^d, there are at
   *  least b - 1 significand bits, and `k` is the digit ceiling of 2^bits. */
  lemma DigitsFromBits(d: nat, b: nat, bits: nat, k: nat)
    requires d >= 1 && Pow(10, d) <= Pow(2, b) && (b > 0 ==> Pow(2, b - 1) < Pow(10, d))
    requires b <= bits + 1 && Pow(2, bits) <= Pow(10, k)
    ensures k >= d
  {
    var low := Pow(10, d - 1);
    assert Pow(10, d) == 10 * low;
    assert b >= 1 by {
      assert Pow(10, d) >= 10;
    }
    assert Pow(2, b) == 2 * Pow(2, b - 1);
    assert low < Pow(2, b - 1);
    PowMonotone(2, b - 1, bits);
    if k < d {
      PowMonotone(10, k, d - 1);
    }
  }

  /** Reading back with ForBufferSize: the buffer of a ForDigitCount(digitCount) packer
   *  claims at least `digitCount` digits again. */
  lemma DigitCountOfByteBufferSize(digitCount: nat)
    requires digitCount >= 1
    ensures DigitCountOfBuffer(ByteBufferSize(digitCount)) >= digitCount
  {
    BufferBitsRoom(digitCount);
    DigitCountOfRoomySize(digitCount, ByteBufferSize(digitCount));
  }

  /** Any buffer with room for the unsigned bits and a sign bit claims at least
   *  `digitCount` digits. */
  lemma DigitCountOfRoomySize(digitCount: nat, size: int)
    requires digitCount >= 1 && size >= 4 && BitsForUnsigned(digitCount) <= 8 * size - 9
    ensures DigitCountOfBuffer(size) >= digitCount
  {
    var b := BitsForUnsigned(digitCount);
    BitsForUnsignedIsCeiling(digitCount);
    DigitCountIsCeiling(size);
    DigitsFromBits(digitCount, b, 8 * size - 10, DigitCountOfBuffer(size));
  }

  /** The unit tests' buffer sizes. */
  lemma ByteBufferSizeExamples()
    ensures ByteBufferSize(1) == 4 && ByteBufferSize(3) == 4
    ensures ByteBufferSize(7) == 8 && ByteBufferSize(16) == 8
  {
    assert Pow(10, 1) == 10 && Pow(2, 3) == 8 && Pow(2, 4) == 16;
    BitLengthExactly(9, 4);
    assert Pow(10, 3) == 1000 && Pow(2, 9) == 512 && Pow(2, 10) == 1024;
    BitLengthExactly(999, 10);
    assert Pow(2, 20) == 1048576 by { PowAdd(2, 10, 10); }
    assert Pow(2, 23) == 8388608 by { PowAdd(2, 20, 3); }
    assert Pow(2, 24) == 16777216 by { PowAdd(2, 20, 4); }
    assert Pow(10, 7) == 10000000;
    BitLengthExactly(9999999, 24);
    SixteenDigitBits();
  }

  lemma SixteenDigitBits()
    ensures BitsForUnsigned(16) == 54
  {
    assert Pow(10, 8) == 100000000;
    assert Pow(10, 16) == 10000000000000000 by { PowAdd(10, 8, 8); }
    assert Pow(2, 10) == 1024;
    assert Pow(2, 20) == 1048576 by { PowAdd(2, 10, 10); }
    assert Pow(2, 40) == 1099511627776 by { PowAdd(2, 20, 20); }
    assert Pow(2, 50) == 1125899906842624 by { PowAdd(2, 40, 10); }
    assert Pow(2, 53) == 9007199254740992 by { PowAdd(2, 50, 3); }
    assert Pow(2, 54) == 18014398509481984 by { PowAdd(2, 50, 4); }
    BitLengthExactly(9999999999999999, 54);
  }

  /** The unit tests' digit counts. */
  lemma DigitCountExamples()
    ensures DigitCountOfBuffer(4) == 7 && DigitCountOfBuffer(8) == 17
  {
    DigitCountOfFour();
    DigitCountOfEight();
  }

  lemma DigitCountOfFour()
    ensures DigitCountOfBuffer(4) == 7
  {
    assert Pow(2, 10) == 1024;
    assert Pow(2, 20) == 1048576 by { PowAdd(2, 10, 10); }
    assert Pow(2, 22) == 4194304 by { PowAdd(2, 20, 2); }
    assert Pow(10, 6) == 1000000 && Pow(10, 7) == 10000000;
    DecimalDigitsExactly(4194303, 7);
  }

  lemma DigitCountOfEight()
    ensures DigitCountOfBuffer(8) == 17
  {
    assert Pow(2, 10) == 1024;
    assert Pow(2, 20) == 1048576 by { PowAdd(2, 10, 10); }
    assert Pow(2, 40) == 1099511627776 by { PowAdd(2, 20, 20); }
    assert Pow(2, 50) == 1125899906842624 by { PowAdd(2, 40, 10); }
    assert Pow(2, 54) == 18014398509481984 by { PowAdd(2, 50, 4); }
    assert Pow(10, 8) == 100000000;
    assert Pow(10, 16) == 10000000000000000 by { PowAdd(10, 8, 8); }
    assert Pow(10, 17) == 100000000000000000 by { PowAdd(10, 16, 1); }
    DecimalDigitsExactly(18014398509481983, 17);
  }


  // ---------------------------------------------------------------- the packed form

  function Abs(v: int): nat
  {
    if v < 0 then -v else v
  }

  /** `(byte)(1 + ~scale)`: the exponent byte holds the negated scale. */
  function NegatedScale(scale: int): byte
  {
    (-scale) % 0x100
  }

  /** The byte that extends the sign of a two's-complement value. */
  function SignFill(negative: bool): byte
  {
    if negative then 0xFF else 0
  }

  /** Beyond the 16 bytes an SqlDecimal holds, a significand carries only its sign. */
  predicate SignExtended(significand: seq<byte>, negative: bool)
  {
    forall i :: SqlDecimalByteCount <= i < |significand| ==> significand[i] == SignFill(negative)
  }

  /** What Pack stores in a buffer of `length` bytes for a packer of `bufferSize`: the
   *  signed value as a two's-complement significand of `bufferSize - 1` bytes, then the
   *  negated scale.  A magnitude that would reach the significand's sign bit is refused. */
  function PackedDecimal(bufferSize: int, length: nat, d: SqlDecimal): (r: Result<seq<byte>>)
    requires bufferSize % 4 == 0 && d.Valid()
    ensures r.Success? ==> |r.value| == bufferSize && bufferSize >= 4
  {
    if length != bufferSize then Failure(Argument)
    else if bufferSize == 0 then Failure(IndexOutOfRange)
    else if d.magnitude >= 0x80 * Pow(0x100, bufferSize - 2) then Failure(InvalidCast)
    else Success(EncodeSigned(d.Signed(), bufferSize - 1) + [NegatedScale(d.scale)])
  }

  /** Pack's range check as the library writes it: only the magnitude's bytes at and above
   *  the exponent byte's position must be zero, so a magnitude filling the whole
   *  significand, sign bit included, gets through. */
  function PackedDecimalAsWritten(bufferSize: int, length: nat, d: SqlDecimal): (r: Result<seq<byte>>)
    requires bufferSize % 4 == 0 && d.Valid()
    ensures r.Success? ==> |r.value| == bufferSize && bufferSize >= 4
  {
    if length != bufferSize then Failure(Argument)
    else if bufferSize == 0 then Failure(IndexOutOfRange)
    else if bufferSize - 1 < SqlDecimalByteCount && d.magnitude >= Pow(0x100, bufferSize - 1) then Failure(InvalidCast)
    else Success(EncodeSigned(d.Signed(), bufferSize - 1) + [NegatedScale(d.scale)])
  }

  /** What Unpack makes of a buffer: the significand as a two's-complement value whose
   *  bytes beyond the 16th are only its sign, the scale from the exponent byte, and the
   *  packer's digit count (at most 38, at least the scale) as the precision. */
  function UnpackedDecimal(digitCount: int, bufferSize: int, bytes: seq<byte>): (r: Result<SqlDecimal>)
    requires bufferSize % 4 == 0
    ensures r.Success? ==> r.value.Valid()
  {
    if |bytes| != bufferSize then Failure(Argument)
    else if bufferSize == 0 then Failure(IndexOutOfRange)
    else
      var significand := bytes[..bufferSize - 1];
      var v := DecodeSigned(significand);
      if !SignExtended(significand, v < 0) then Failure(InvalidCast)
      else
        var scale := NegatedScale(bytes[bufferSize - 1]);
        NewSqlDecimal(Max(scale, Min(digitCount, SqlDecimalPrecisionLimit)), scale, v >= 0, Abs(v) % MagnitudeModulus)
  }

  /** Whether Unpack gets past its checks of the buffer; past them it overwrites the
   *  exponent byte with the sign fill. */
  predicate UnpackAccepts(bufferSize: int, bytes: seq<byte>)
    requires bufferSize % 4 == 0
  {
    |bytes| == bufferSize && bufferSize > 0
    && SignExtended(bytes[..bufferSize - 1], DecodeSigned(bytes[..bufferSize - 1]) < 0)
  }

  /** The buffer as Unpack leaves it once past its checks: the exponent byte
   *  overwritten with the sign fill. */
  function SignSettled(bufferSize: int, bytes: seq<byte>): (r: seq<byte>)
    requires bufferSize % 4 == 0 && UnpackAccepts(bufferSize, bytes)
    ensures |r| == |bytes| && r[..bufferSize - 1] == bytes[..bufferSize - 1]
  {
    bytes[bufferSize - 1 := SignFill(DecodeSigned(bytes[..bufferSize - 1]) < 0)]
  }

  lemma NegatedScaleInvolution(scale: nat)
    requires scale < 0x100
    ensures NegatedScale(NegatedScale(scale)) == scale
  {
    if scale > 0 {
      DivModUnique(-(scale as int), 0x100, -1, 0x100 - scale);
      DivModUnique((scale as int) - 0x100, 0x100, -1, scale);
    }
  }

  /** A value of the 16-byte range is a pure sign extension beyond 16 bytes in any
   *  wider pattern. */
  lemma EncodingSignExtended(v: int, n: nat)
    requires InSignedRange(v, SqlDecimalByteCount)
    ensures SignExtended(EncodeSigned(v, n), v < 0)
  {
    if n > SqlDecimalByteCount {
      SignExtend(v, SqlDecimalByteCount, n - SqlDecimalByteCount);
    }
  }

  /** A magnitude below the significand's sign bit, with its sign, fits the n-byte
   *  significand and the 16 bytes of an SqlDecimal: its pattern decodes to it again
   *  and is a pure sign extension beyond 16 bytes. */
  lemma SignificandRoundTrip(d: SqlDecimal, n: nat)
    requires d.Valid() && n > 0 && d.magnitude < 0x80 * Pow(0x100, n - 1)
    ensures DecodeSigned(EncodeSigned(d.Signed(), n)) == d.Signed()
    ensures SignExtended(EncodeSigned(d.Signed(), n), d.Signed() < 0)
    ensures (d.Signed() >= 0) == d.positive && Abs(d.Signed()) == d.magnitude
    ensures d.magnitude < MagnitudeModulus
  {
    var s := d.Signed();
    assert InSignedRange(s, n);
    SignedRoundTrip(s, n);
    ValidMagnitudeFits(d);
    EncodingSignExtended(s, n);
    MagnitudeModulusValue();
  }

  /** Every decimal that packs unpacks to the same sign, scale and magnitude; the
   *  precision becomes the packer's. */
  lemma PackUnpack(digitCount: int, bufferSize: nat, d: SqlDecimal)
    requires bufferSize % 4 == 0 && d.Valid() && PackedDecimal(bufferSize, bufferSize, d).Success?
    ensures UnpackedDecimal(digitCount, bufferSize, PackedDecimal(bufferSize, bufferSize, d).value)
         == NewSqlDecimal(Max(d.scale, Min(digitCount, SqlDecimalPrecisionLimit)), d.scale, d.positive, d.magnitude)
  {
    var n := bufferSize - 1;
    var e := EncodeSigned(d.Signed(), n);
    var bytes := e + [NegatedScale(d.scale)];
    assert PackedDecimal(bufferSize, bufferSize, d).value == bytes;
    assert bytes[..n] == e && bytes[n] == NegatedScale(d.scale);
    SignificandRoundTrip(d, n);
    NegatedScaleInvolution(d.scale);
    DivModUnique(d.magnitude, MagnitudeModulus, 0, d.magnitude);
  }

  /** A decimal that packs, and whose digits the unpacking packer's precision holds,
   *  unpacks to itself with that precision. */
  lemma RoundTripWithRoom(digitCount: int, bufferSize: nat, d: SqlDecimal)
    requires digitCount >= 1 && bufferSize % 4 == 0 && d.Valid() && PackedDecimal(bufferSize, bufferSize, d).Success?
    requires d.magnitude < Pow(10, Max(d.scale, Min(digitCount, SqlDecimalPrecisionLimit)))
    ensures UnpackedDecimal(digitCount, bufferSize, PackedDecimal(bufferSize, bufferSize, d).value)
         == Success(d.(precision := Max(d.scale, Min(digitCount, SqlDecimalPrecisionLimit))))
  {
    PackUnpack(digitCount, bufferSize, d);
    var precision := Max(d.scale, Min(digitCount, SqlDecimalPrecisionLimit));
    var r := NewSqlDecimal(precision, d.scale, d.positive, d.magnitude);
    assert r.value == d.(precision := precision);
  }

  /** A packer sized for `digitCount` digits packs every decimal of at most that many
   *  digits. */
  lemma ForDigitCountPacks(digitCount: nat, d: SqlDecimal)
    requires d.Valid() && d.magnitude < Pow(10, digitCount)
    ensures PackedDecimal(ByteBufferSize(digitCount), ByteBufferSize(digitCount), d).Success?
  {
    var size := ByteBufferSize(digitCount);
    ByteBufferSizeHolds(digitCount);
    assert d.magnitude < 0x80 * Pow(0x100, size - 2);
  }

  /** Unpack(Pack(d)) on one ForDigitCount(digitCount) packer is d with the packer's
   *  precision, for every decimal of at most `digitCount` digits. */
  lemma ForDigitCountRoundTrip(digitCount: nat, d: SqlDecimal)
    requires 1 <= digitCount <= SqlDecimalPrecisionLimit && d.Valid() && d.magnitude < Pow(10, digitCount)
    ensures var size := ByteBufferSize(digitCount);
      PackedDecimal(size, size, d).Success?
      && UnpackedDecimal(digitCount, size, PackedDecimal(size, size, d).value) == Success(d.(precision := Max(d.scale, digitCount)))
  {
    var size := ByteBufferSize(digitCount);
    ForDigitCountPacks(digitCount, d);
    PowMonotone(10, digitCount, Max(d.scale, digitCount));
    RoundTripWithRoom(digitCount, size, d);
  }

  /** Unpacking with ForBufferSize of the packed length, as a reader that knows only the
   *  column's length does, also gives d back, with the digit count of that length (at
   *  most 38) as precision. */
  lemma ForBufferSizeRoundTrip(digitCount: nat, d: SqlDecimal)
    requires 1 <= digitCount <= SqlDecimalPrecisionLimit && d.Valid() && d.magnitude < Pow(10, digitCount)
    ensures var size := ByteBufferSize(digitCount);
      var precision := Max(d.scale, Min(DigitCountOfBuffer(size), SqlDecimalPrecisionLimit));
      PackedDecimal(size, size, d).Success?
      && UnpackedDecimal(DigitCountOfBuffer(size), size, PackedDecimal(size, size, d).value) == Success(d.(precision := precision))
  {
    var size := ByteBufferSize(digitCount);
    ForDigitCountPacks(digitCount, d);
    DigitCountOfByteBufferSize(digitCount);
    var k := DigitCountOfBuffer(size);
    PowMonotone(10, digitCount, Max(d.scale, Min(k, SqlDecimalPrecisionLimit)));
    RoundTripWithRoom(k, size, d);
  }

  /** The as-written check lets a ForBufferSize(4) packer, which claims seven digits,
   *  pack the seven-digit +9999999; the bytes it stores unpack as -6777217. */
  lemma PackAsWrittenLosesSign()
    ensures DigitCountOfBuffer(4) == 7
    ensures var d := SqlDecimal(7, 0, true, 9999999);
      d.Valid() && PackedDecimalAsWritten(4, 4, d) == Success([0x7F, 0x96, 0x98, 0x00])
      && UnpackedDecimal(7, 4, [0x7F, 0x96, 0x98, 0x00]) == Success(SqlDecimal(7, 0, false, 6777217))
  {
    DigitCountOfFour();
    PackAsWrittenTopBitSet();
    UnpackWithTopBitSet();
  }

  lemma PackAsWrittenTopBitSet()
    ensures var d := SqlDecimal(7, 0, true, 9999999);
      d.Valid() && PackedDecimalAsWritten(4, 4, d) == Success([0x7F, 0x96, 0x98, 0x00])
  {
    assert Pow(10, 7) == 10000000;
    assert Pow(0x100, 3) == 0x100_0000;
    assert Unsigned(9999999, 3) == 9999999;
    assert ToLE(9999999, 3) == [0x7F, 0x96, 0x98];
    assert NegatedScale(0) == 0;
    assert [0x7F, 0x96, 0x98] + [NegatedScale(0)] == [0x7F, 0x96, 0x98, 0x00];
  }

  lemma UnpackWithTopBitSet()
    ensures UnpackedDecimal(7, 4, [0x7F, 0x96, 0x98, 0x00]) == Success(SqlDecimal(7, 0, false, 6777217))
  {
    var bytes: seq<byte> := [0x7F, 0x96, 0x98, 0x00];
    assert bytes[..3] == [0x7F, 0x96, 0x98];
    assert Pow(0x100, 3) == 0x100_0000 && Pow(0x100, 2) == 0x1_0000;
    assert FromLE([0x7F, 0x96, 0x98]) == 9999999;
    assert DecodeSigned(bytes[..3]) == -6777217;
    assert NegatedScale(0) == 0;
    assert Abs(-6777217) % MagnitudeModulus == 6777217;
    assert Pow(10, 7) == 10000000;
  }

  /** The corrected check refuses that value instead. */
  lemma PackRefusesSignBit()
    ensures PackedDecimal(4, 4, SqlDecimal(7, 0, true, 9999999)) == Failure(InvalidCast)
  {
    assert Pow(0x100, 2) == 0x1_0000;
    assert Pow(10, 7) == 10000000;
  }

  /** A packed pattern of a four-byte packer, from its three significand bytes. */
  lemma PackedInFour(d: SqlDecimal, significand: seq<byte>)
    requires d.Valid() && d.magnitude < 0x80_0000 && |significand| == 3
    requires ToLE(Unsigned(d.Signed(), 3), 3) == significand
    ensures PackedDecimal(4, 4, d) == Success(significand + [NegatedScale(d.scale)])
  {
    assert Pow(0x100, 2) == 0x1_0000;
  }

  /** The unit tests' packed patterns. */
  lemma PackExamples()
    ensures PackedDecimal(4, 4, SqlDecimal(1, 0, true, 9)) == Success([0x09, 0x00, 0x00, 0x00])
    ensures PackedDecimal(4, 4, SqlDecimal(1, 0, false, 9)) == Success([0xF7, 0xFF, 0xFF, 0x00])
    ensures PackedDecimal(4, 4, SqlDecimal(3, 0, true, 999)) == Success([0xE7, 0x03, 0x00, 0x00])
    ensures PackedDecimal(4, 4, SqlDecimal(3, 0, false, 999)) == Success([0x19, 0xFC, 0xFF, 0x00])
    ensures PackedDecimal(4, 4, SqlDecimal(6, 6, false, 494336)) == Success([0x00, 0x75, 0xF8, 0xFA])
  {
    assert Pow(0x100, 3) == 0x100_0000;
    assert Pow(10, 1) == 10 && Pow(10, 3) == 1000 && Pow(10, 6) == 1000000;
    assert NegatedScale(0) == 0;
    assert NegatedScale(6) == 0xFA by { DivModUnique(-6, 0x100, -1, 0xFA); }
    assert Unsigned(9, 3) == 9;
    assert ToLE(9, 3) == [0x09, 0x00, 0x00];
    PackedInFour(SqlDecimal(1, 0, true, 9), [0x09, 0x00, 0x00]);
    assert [0x09, 0x00, 0x00] + [NegatedScale(0)] == [0x09, 0x00, 0x00, 0x00];
    assert Unsigned(-9, 3) == 0xFF_FFF7 by { DivModUnique(-9, 0x100_0000, -1, 0xFF_FFF7); }
    assert ToLE(0xFF_FFF7, 3) == [0xF7, 0xFF, 0xFF];
    PackedInFour(SqlDecimal(1, 0, false, 9), [0xF7, 0xFF, 0xFF]);
    assert [0xF7, 0xFF, 0xFF] + [NegatedScale(0)] == [0xF7, 0xFF, 0xFF, 0x00];
    assert Unsigned(999, 3) == 999;
    assert ToLE(999, 3) == [0xE7, 0x03, 0x00];
    PackedInFour(SqlDecimal(3, 0, true, 999), [0xE7, 0x03, 0x00]);
    assert [0xE7, 0x03, 0x00] + [NegatedScale(0)] == [0xE7, 0x03, 0x00, 0x00];
    assert Unsigned(-999, 3) == 0xFF_FC19 by { DivModUnique(-999, 0x100_0000, -1, 0xFF_FC19); }
    assert ToLE(0xFF_FC19, 3) == [0x19, 0xFC, 0xFF];
    PackedInFour(SqlDecimal(3, 0, false, 999), [0x19, 0xFC, 0xFF]);
    assert [0x19, 0xFC, 0xFF] + [NegatedScale(0)] == [0x19, 0xFC, 0xFF, 0x00];
    assert Unsigned(-494336, 3) == 0xF8_7500 by { DivModUnique(-494336, 0x100_0000, -1, 0xF8_7500); }
    assert ToLE(0xF8_7500, 3) == [0x00, 0x75, 0xF8];
    PackedInFour(SqlDecimal(6, 6, false, 494336), [0x00, 0x75, 0xF8]);
    assert [0x00, 0x75, 0xF8] + [NegatedScale(6)] == [0x00, 0x75, 0xF8, 0xFA];
  }

  // ---------------------------------------------------------------- the packer's buffers

  /** Pack's loop: the magnitude's bytes from `k` up are all zero exactly when it is
   *  below 256^k. */
  lemma HighBytesZero(m: nat, k: nat)
    requires k <= SqlDecimalByteCount && m < MagnitudeModulus
    ensures (forall j :: k <= j < SqlDecimalByteCount ==> ToLE(m, SqlDecimalByteCount)[j] == 0) <==> m < Pow(0x100, k)
  {
    MagnitudeModulusValue();
    HighBytesZeroOfWidth(m, k, SqlDecimalByteCount);
  }

  lemma HighBytesZeroOfWidth(m: nat, k: nat, w: nat)
    requires k <= w && m < Pow(0x100, w)
    ensures (forall j :: k <= j < w ==> ToLE(m, w)[j] == 0) <==> m < Pow(0x100, k)
  {
    var t := ToLE(m, w);
    FromLEToLE(m, w);
    DivModUnique(m, Pow(0x100, w), 0, m);
    var low, high := t[..k], t[k..];
    assert t == low + high;
    FromLEAppend(low, high);
    FromLEIsZero(high);
    SplitBelow(m, FromLE(low), Pow(0x100, k), FromLE(high));
    assert high == Zeros(|high|) <==> forall j :: k <= j < w ==> t[j] == 0 by {
      if forall j :: k <= j < w ==> t[j] == 0 {
        assert forall i :: 0 <= i < |high| ==> high[i] == t[k + i];
      }
    }
  }

  /** A number written as a low part below `p` and `p` times a high part is below
   *  `p` exactly when the high part is zero. */
  lemma SplitBelow(m: nat, lo: nat, p: nat, hi: nat)
    requires m == lo + p * hi && lo < p
    ensures hi == 0 <==> m < p
  {
    if hi > 0 {
      MulMonotone(p, 1, hi);
    }
  }

  /** Pack's sign-bit check: below 256^n, the top bit of byte n - 1 is set exactly when
   *  the magnitude reaches the sign bit of an n-byte significand. */
  lemma TopBitMagnitude(m: nat, n: nat)
    requires 0 < n <= SqlDecimalByteCount && m < Pow(0x100, n)
    ensures ToLE(m, SqlDecimalByteCount)[n - 1] >= 0x80 <==> m >= 0x80 * Pow(0x100, n - 1)
  {
    ToLEPrefix(m, SqlDecimalByteCount, n);
    var t := ToLE(m, n);
    assert ToLE(m, SqlDecimalByteCount)[n - 1] == t[n - 1];
    TopByteSign(t);
    FromLEToLE(m, n);
    DivModUnique(m, Pow(0x100, n), 0, m);
  }

  /** A sign-extended `w`-byte pattern is the wider pattern. */
  lemma WidePattern(v: int, t: seq<byte>, w: nat, n: nat)
    requires 0 < w < n && |t| > n && InSignedRange(v, w)
    requires t[..w] == EncodeSigned(v, w)
    requires forall i :: w <= i < n ==> t[i] == SignFill(v < 0)
    ensures t[..n] == EncodeSigned(v, n)
  {
    var k := n - w;
    SignExtend(v, w, k);
    var tail := t[w..n];
    assert tail == Repeat(SignFill(v < 0), k) by {
      forall i | 0 <= i < k
        ensures tail[i] == SignFill(v < 0)
      {
        assert tail[i] == t[w + i];
      }
    }
    assert t[..n] == t[..w] + tail;
  }

  /** What ApplySignToUnsigned leaves in Pack's buffer is the two's-complement pattern of
   *  the signed value, sign-extended past the 16 bytes of the SqlDecimal. */
  lemma PackedSignificand(d: SqlDecimal, bufferSize: nat, t: seq<byte>)
    requires d.Valid() && bufferSize > 0 && |t| == bufferSize
    requires bufferSize <= SqlDecimalByteCount ==> d.magnitude < Pow(0x100, bufferSize - 1)
    requires var count := Min(bufferSize, SqlDecimalByteCount);
      t[..count] == SignApplied(FromLE(ToLE(d.magnitude, SqlDecimalByteCount)[..count]), count, !d.positive)
    requires forall i :: Min(bufferSize, SqlDecimalByteCount) <= i < bufferSize ==> t[i] == SignByte(if d.positive then 0 else -1)
    ensures t[..bufferSize - 1] == EncodeSigned(d.Signed(), bufferSize - 1)
  {
    ValidMagnitudeFits(d);
    assert d.magnitude < Pow(0x100, SqlDecimalByteCount) by {
      MagnitudeModulusValue();
    }
    SignByteFill(d.positive);
    SignificandPattern(d.magnitude, !d.positive, SqlDecimalByteCount, bufferSize, t);
  }

  /** The byte Pack fills with is the sign's fill byte. */
  lemma SignByteFill(positive: bool)
    ensures SignByte(if positive then 0 else -1) == SignFill(!positive)
  {
    if !positive {
      assert -1 % 0x100 == 0xFF;
    }
  }

  /** The same over any width `w` of the magnitude's byte form. */
  lemma SignificandPattern(m: nat, negative: bool, w: nat, bufferSize: nat, t: seq<byte>)
    requires w > 0 && bufferSize > 0 && |t| == bufferSize && m < Pow(0x100, w) && (m == 0 ==> !negative)
    requires InSignedRange(if negative then -(m as int) else m, w)
    requires bufferSize <= w ==> m < Pow(0x100, bufferSize - 1)
    requires var count := Min(bufferSize, w);
      t[..count] == SignApplied(FromLE(ToLE(m, w)[..count]), count, negative)
    requires forall i :: Min(bufferSize, w) <= i < bufferSize ==> t[i] == SignFill(negative)
    ensures t[..bufferSize - 1] == EncodeSigned(if negative then -(m as int) else m, bufferSize - 1)
  {
    var count := Min(bufferSize, w);
    var v := if negative then -(m as int) else m;
    assert m < Pow(0x100, count) by {
      if bufferSize <= w {
        PowMonotone(0x100, bufferSize - 1, bufferSize);
      }
    }
    ToLEPrefix(m, w, count);
    FromLEToLE(m, count);
    DivModUnique(m, Pow(0x100, count), 0, m);
    SignAppliedIsTwosComplement(m, count, negative);
    if bufferSize <= w {
      EncodeSignedPrefix(v, count, bufferSize - 1);
      assert t[..bufferSize - 1] == t[..count][..bufferSize - 1];
    } else {
      assert count == w && (negative <==> v < 0);
      assert t[..w] == EncodeSigned(v, w);
      if bufferSize - 1 > w {
        forall i | w <= i < bufferSize - 1
          ensures t[i] == SignFill(v < 0)
        {
          assert Min(bufferSize, w) <= i < bufferSize;
        }
        WidePattern(v, t, w, bufferSize - 1);
      }
    }
  }

  /** The arithmetic of Unpack on a packer of at most 16 bytes: negating the n-byte
   *  pattern of a negative value gives its magnitude. */
  lemma NarrowArith(v: int, p: nat, negative: bool)
    requires p > 0 && -(p as int) < v < p && (negative <==> v < 0)
    ensures var u := v % p; (if negative then Negation(u, p) else u) == Abs(v)
  {
    if negative {
      DivModUnique(v, p, -1, v + p);
      DivModUnique(-(v + p), p, -1, -v);
    } else {
      DivModUnique(v, p, 0, v);
    }
  }

  /** Re-encoding an n-byte two's-complement significand, one sign byte longer, and taking
   *  its magnitude back out gives the absolute value. */
  lemma NarrowMagnitude(significand: seq<byte>, negative: bool, n: nat)
    requires |significand| > 0 && n == |significand| + 1
    requires negative <==> DecodeSigned(significand) < 0
    ensures var v := DecodeSigned(significand);
      Abs(v) < Pow(0x100, n) &&
      FromLE(SignApplied(FromLE(significand + [SignFill(negative)]), n, negative)) == Abs(v)
  {
    var v := DecodeSigned(significand);
    var p := Pow(0x100, n);
    SignedRoundTripBytes(significand);
    SignExtend(v, |significand|, 1);
    assert Repeat(SignFill(negative), 1) == [SignFill(negative)];
    assert significand + [SignFill(negative)] == EncodeSigned(v, n);
    var e := Unsigned(v, n);
    FromLEToLE(e, n);
    DivModUnique(e, p, 0, e);
    var u := FromLE(significand + [SignFill(negative)]);
    assert u == v % p;
    assert -(p as int) < v < p by {
      var h := Pow(0x100, |significand| - 1);
      assert p == 0x100 * (0x100 * h);
    }
    NarrowArith(v, p, negative);
    var w := if negative then Negation(u, p) else u;
    FromLEToLE(w, n);
    DivModUnique(w, p, 0, w);
  }

  /** Unpack on a packer of at most 16 bytes: the words it builds hold the magnitude of
   *  the significand. */
  lemma UnpackNarrow(significand: seq<byte>, negative: bool)
    requires |significand| + 1 <= SqlDecimalByteCount && |significand| > 0
    requires negative <==> DecodeSigned(significand) < 0
    ensures var n := |significand| + 1;
      FromLE(SignApplied(FromLE(significand + [SignFill(negative)]), n, negative)) == Abs(DecodeSigned(significand)) % MagnitudeModulus
  {
    var n := |significand| + 1;
    var a := Abs(DecodeSigned(significand));
    NarrowMagnitude(significand, negative, n);
    MagnitudeModulusValue();
    PowMonotone(0x100, n, SqlDecimalByteCount);
    DivModUnique(a, MagnitudeModulus, 0, a);
  }

  /** The arithmetic of Unpack on a packer wider than 16 bytes. */
  lemma WideArith(l: nat, p16: nat, pk: nat, v: int, negative: bool)
    requires 0 <= l < p16 && pk > 0
    requires v == if negative then l + p16 * (pk - 1) - p16 * pk else l
    ensures (if negative then Negation(l, p16) else l) == Abs(v) % p16
  {
    if negative {
      assert v == l - p16;
      NegationOfBelow(l, p16);
      if l == 0 {
        DivModUnique(p16, p16, 1, 0);
      } else {
        DivModUnique(p16 - l, p16, 0, p16 - l);
      }
    } else {
      DivModUnique(l, p16, 0, l);
    }
  }

  /** The low `w` bytes of a sign-extended significand hold its value modulo 256^w. */
  lemma WideMagnitude(significand: seq<byte>, negative: bool, w: nat)
    requires 0 < w < |significand|
    requires negative <==> DecodeSigned(significand) < 0
    requires forall i :: w <= i < |significand| ==> significand[i] == SignFill(negative)
    ensures FromLE(SignApplied(FromLE(significand[..w]), w, negative))
         == Abs(DecodeSigned(significand)) % Pow(0x100, w)
  {
    var k := |significand| - w;
    var v := DecodeSigned(significand);
    var low, high := significand[..w], significand[w..];
    assert significand == low + high;
    assert high == Repeat(SignFill(negative), k) by {
      forall i | 0 <= i < k
        ensures high[i] == SignFill(negative)
      {
        assert high[i] == significand[w + i];
      }
    }
    var l, pw, pk := FromLE(low), Pow(0x100, w), Pow(0x100, k);
    var hv := FromLE(high);
    FromLEFill(negative, k);
    assert hv == if negative then pk - 1 else 0;
    FromLEAppend(low, high);
    var f := FromLE(significand);
    assert f == l + pw * hv;
    PowAdd(0x100, w, k);
    var pn := Pow(0x100, |significand|);
    assert pn == pw * pk;
    assert f < pn;
    assert v == if f < 0x80 * Pow(0x100, |significand| - 1) then f else f - pn;
    assert v == if negative then (f as int) - pw * pk else f;
    WideArith(l, pw, pk, v, negative);
    var r := if negative then Negation(l, pw) else l;
    FromLEToLE(r, w);
    DivModUnique(r, pw, 0, r);
  }

  /** Unpack on a packer wider than 16 bytes: with the significand's top bytes a pure
   *  sign extension, its low 16 bytes hold the value modulo 2^128. */
  lemma UnpackWide(significand: seq<byte>, negative: bool)
    requires |significand| > SqlDecimalByteCount
    requires negative <==> DecodeSigned(significand) < 0
    requires SignExtended(significand, negative)
    ensures FromLE(SignApplied(FromLE(significand[..SqlDecimalByteCount]), SqlDecimalByteCount, negative))
         == Abs(DecodeSigned(significand)) % MagnitudeModulus
  {
    WideMagnitude(significand, negative, SqlDecimalByteCount);
    MagnitudeModulusValue();
  }

  /** What Pack's two scans establish about the magnitude: it fits the significand with
   *  the sign bit clear. */
  lemma PackFits(m: nat, bufferSize: int, bytes: seq<byte>)
    requires bytes == ToLE(m, SqlDecimalByteCount) && m < 0x80 * Pow(0x100, 15) && bufferSize >= 2
    requires forall j :: bufferSize - 1 <= j < SqlDecimalByteCount ==> bytes[j] == 0
    requires bufferSize - 1 < SqlDecimalByteCount ==> bytes[bufferSize - 2] < 0x80
    ensures m < 0x80 * Pow(0x100, bufferSize - 2)
  {
    var significandBytes := bufferSize - 1;
    MagnitudeModulusValue();
    if significandBytes < SqlDecimalByteCount {
      HighBytesZero(m, significandBytes);
      TopBitMagnitude(m, significandBytes);
    } else {
      if significandBytes - 1 > 15 {
        PowMonotone(0x100, 15, significandBytes - 1);
      }
      assert Pow(0x100, SqlDecimalByteCount) == 0x100 * Pow(0x100, 15);
    }
  }

  /** What either of Pack's scans finding a fault says about the magnitude: it does not
   *  fit the significand with the sign bit clear. */
  lemma PackOverflows(m: nat, bufferSize: int, bytes: seq<byte>, i: nat)
    requires bytes == ToLE(m, SqlDecimalByteCount) && m < MagnitudeModulus
    requires 2 <= bufferSize <= i + 2 && i < SqlDecimalByteCount
    requires if i < bufferSize - 1 then bytes[i] >= 0x80 else bytes[i] != 0
    ensures m >= 0x80 * Pow(0x100, bufferSize - 2)
  {
    var significandBytes: nat := bufferSize - 1;
    HighBytesZero(m, significandBytes);
    assert Pow(0x100, significandBytes) == 0x100 * Pow(0x100, significandBytes - 1);
    if m < Pow(0x100, significandBytes) {
      TopBitMagnitude(m, significandBytes);
    }
  }

  /** Replacing the last element of a sequence. */
  lemma ReplaceLast(t: seq<byte>, x: byte)
    requires |t| > 0
    ensures t[|t| - 1 := x] == t[..|t| - 1] + [x]
  {
  }

  /** A value Pack accepts fits the significand, sign bit clear. */
  lemma PackedFits(bufferSize: int, length: nat, d: SqlDecimal)
    requires bufferSize % 4 == 0 && d.Valid() && PackedDecimal(bufferSize, length, d).Success?
    ensures length == bufferSize && bufferSize >= 4
    ensures d.magnitude < 0x80 * Pow(0x100, bufferSize - 2)
    ensures bufferSize <= SqlDecimalByteCount ==> d.magnitude < Pow(0x100, bufferSize - 1)
  {
    assert Pow(0x100, bufferSize - 1) == 0x100 * Pow(0x100, bufferSize - 2);
  }

  /** A positive size in whole words is at least one word. */
  lemma WholeWords(n: int)
    requires n % 4 == 0 && n > 0
    ensures n >= 4
  {
    DivModUnique(n, 4, n / 4, 0);
  }

  /** The bounds on a valid decimal's magnitude that Pack relies on. */
  lemma MagnitudeBounds(d: SqlDecimal)
    requires d.Valid()
    ensures d.magnitude < MagnitudeModulus && d.magnitude < 0x80 * Pow(0x100, 15)
  {
    ValidMagnitudeFits(d);
    MagnitudeModulusValue();
  }

  /** Pack's result for a value of the right size that does not fit. */
  lemma PackRejected(bufferSize: int, d: SqlDecimal)
    requires bufferSize % 4 == 0 && bufferSize > 0 && d.Valid()
    requires d.magnitude >= 0x80 * Pow(0x100, bufferSize - 2)
    ensures PackedDecimal(bufferSize, bufferSize, d) == Failure(InvalidCast)
  {
  }

  /** Pack's result once a value of the right size is known to fit. */
  lemma PackAccepted(bufferSize: int, d: SqlDecimal)
    requires bufferSize % 4 == 0 && bufferSize > 0 && d.Valid()
    requires d.magnitude < 0x80 * Pow(0x100, bufferSize - 2)
    ensures PackedDecimal(bufferSize, bufferSize, d)
         == Success(EncodeSigned(d.Signed(), bufferSize - 1) + [NegatedScale(d.scale)])
  {
  }

  /** The magnitude Unpack's words hold, from the postconditions of the sign removal:
   *  the absolute value of the significand, modulo 2^128. */
  lemma UnpackedMagnitude(bytes: seq<byte>, after: seq<byte>, words: seq<uint32>, negative: bool)
    requires |bytes| >= 4 && |bytes| % 4 == 0 && |after| == |bytes| && |words| == SqlDecimalByteCount / 4
    requires negative <==> DecodeSigned(bytes[..|bytes| - 1]) < 0
    requires SignExtended(bytes[..|bytes| - 1], negative)
    requires after == bytes[|bytes| - 1 := SignFill(negative)]
    requires var count := Min(|bytes|, SqlDecimalByteCount);
      WordBytes(words[..count / 4]) == SignApplied(FromLE(after[..count]), count, negative)
      && forall i :: count / 4 <= i < |words| ==> words[i] == 0
    ensures Value(words) == Abs(DecodeSigned(bytes[..|bytes| - 1])) % MagnitudeModulus
  {
    var n := |bytes|;
    var count := Min(n, SqlDecimalByteCount);
    ValueZeroTail(words, count / 4);
    assert Value(words[..count / 4]) == FromLE(SignApplied(FromLE(after[..count]), count, negative));
    if n <= SqlDecimalByteCount {
      assert after[..count] == after;
      NarrowWords(bytes, after, negative);
    } else {
      assert n != 17 by {
        assert 17 % 4 == 1;
      }
      WideWords(bytes, after, negative);
    }
  }

  lemma NarrowWords(bytes: seq<byte>, after: seq<byte>, negative: bool)
    requires 2 <= |bytes| <= SqlDecimalByteCount && |after| == |bytes|
    requires negative <==> DecodeSigned(bytes[..|bytes| - 1]) < 0
    requires after == bytes[|bytes| - 1 := SignFill(negative)]
    ensures FromLE(SignApplied(FromLE(after), |bytes|, negative)) == Abs(DecodeSigned(bytes[..|bytes| - 1])) % MagnitudeModulus
  {
    var significand := bytes[..|bytes| - 1];
    assert after == significand + [SignFill(negative)];
    UnpackNarrow(significand, negative);
  }

  lemma WideWords(bytes: seq<byte>, after: seq<byte>, negative: bool)
    requires |bytes| > SqlDecimalByteCount + 1 && |after| == |bytes|
    requires negative <==> DecodeSigned(bytes[..|bytes| - 1]) < 0
    requires SignExtended(bytes[..|bytes| - 1], negative)
    requires after == bytes[|bytes| - 1 := SignFill(negative)]
    ensures FromLE(SignApplied(FromLE(after[..SqlDecimalByteCount]), SqlDecimalByteCount, negative))
         == Abs(DecodeSigned(bytes[..|bytes| - 1])) % MagnitudeModulus
  {
    var significand := bytes[..|bytes| - 1];
    assert after[..SqlDecimalByteCount] == significand[..SqlDecimalByteCount];
    UnpackWide(significand, negative);
  }

  /** Unpack's result for a buffer that passes its checks. */
  lemma UnpackAccepted(digitCount: int, bufferSize: int, bytes: seq<byte>, magnitude: nat, negative: bool)
    requires bufferSize % 4 == 0 && UnpackAccepts(bufferSize, bytes)
    requires negative <==> DecodeSigned(bytes[..bufferSize - 1]) < 0
    requires magnitude == Abs(DecodeSigned(bytes[..bufferSize - 1])) % MagnitudeModulus
    ensures var scale := NegatedScale(bytes[bufferSize - 1]);
      UnpackedDecimal(digitCount, bufferSize, bytes)
      == NewSqlDecimal(Max(scale, Min(digitCount, SqlDecimalPrecisionLimit)), scale, !negative, magnitude)
  {
  }

  /** The packer: a digit count, the buffer size it packs to, and the word buffer that
   *  Unpack reuses for the SqlDecimal's data. */
  class DecimalPacker {
    const digitCount: int
    const bufferSize: int
    const significandBytes: int
    const intBuffer: array<uint32>

    predicate Valid()
    {
      bufferSize % 4 == 0 && significandBytes == bufferSize - 1
      && intBuffer.Length == SqlDecimalByteCount / 4
    }

    /** The constructor once its argument check has passed. */
    constructor (digitCount: int, bufferSize: int)
      requires bufferSize % 4 == 0
      ensures Valid() && this.digitCount == digitCount && this.bufferSize == bufferSize
      ensures fresh(intBuffer)
    {
      this.digitCount := digitCount;
      this.bufferSize := bufferSize;
      significandBytes := bufferSize - 1;
      intBuffer := new uint32[SqlDecimalByteCount / 4];
    }

    /** The library's constructor: a buffer size that is not whole words is refused. */
    static method Create(digitCount: int, bufferSize: int) returns (r: Result<DecimalPacker>)
      ensures r.Failure? <==> bufferSize % 4 != 0
      ensures r.Failure? ==> r.error == Argument
      ensures r.Success? ==> r.value.Valid() && fresh(r.value) && fresh(r.value.intBuffer)
      ensures r.Success? ==> r.value.digitCount == digitCount && r.value.bufferSize == bufferSize
    {
      if bufferSize % 4 != 0 {
        return Failure(Argument);
      }
      var p := new DecimalPacker(digitCount, bufferSize);
      return Success(p);
    }

    /** A packer sized for decimals of `digitCount` digits; it never fails, because the
     *  size is always whole words. */
    static method ForDigitCount(digitCount: int) returns (p: DecimalPacker)
      ensures p.Valid() && fresh(p) && fresh(p.intBuffer)
      ensures p.digitCount == digitCount && p.bufferSize == ByteBufferSize(digitCount)
    {
      var r := Create(digitCount, ByteBufferSize(digitCount));
      p := r.value;
    }

    /** A packer for buffers of `bufferSize` bytes, holding as many digits as that size
     *  always can. */
    static method ForBufferSize(bufferSize: int) returns (r: Result<DecimalPacker>)
      ensures r.Failure? <==> bufferSize % 4 != 0
      ensures r.Failure? ==> r.error == Argument
      ensures r.Success? ==> r.value.Valid() && fresh(r.value) && fresh(r.value.intBuffer)
      ensures r.Success? ==> r.value.digitCount == DigitCountOfBuffer(bufferSize) && r.value.bufferSize == bufferSize
    {
      r := Create(DigitCountOfBuffer(bufferSize), bufferSize);
    }

    /** A zeroed buffer of the packer's size; a negative size cannot be allocated. */
    method CreateBuffer() returns (r: Result<array<byte>>)
      ensures r.Failure? <==> bufferSize < 0
      ensures r.Failure? ==> r.error == Overflow
      ensures r.Success? ==> fresh(r.value) && r.value[..] == Zeros(bufferSize)
    {
      if bufferSize < 0 {
        return Failure(Overflow);
      }
      var a := new byte[bufferSize](_ => 0);
      return Success(a);
    }

    /** Pack: the decimal's two's-complement significand followed by its negated scale.
     *  Buffers of the wrong length, a zero-byte packer and values that do not fit are
     *  refused before the buffer is touched. */
    method Pack(fromDecimal: SqlDecimal, toBytes: array<byte>) returns (r: Result<()>)
      requires Valid() && fromDecimal.Valid()
      modifies toBytes
      ensures var expected := PackedDecimal(bufferSize, toBytes.Length, fromDecimal);
        r == if expected.Success? then Success(()) else Failure(expected.error)
      ensures r.Success? ==> toBytes[..] == PackedDecimal(bufferSize, toBytes.Length, fromDecimal).value
      ensures r.Failure? ==> unchanged(toBytes)
    {
      r := CheckPackable(fromDecimal, toBytes.Length);
      if r.Success? {
        PackedFits(bufferSize, toBytes.Length, fromDecimal);
        StoreFitting(fromDecimal, toBytes);
        PackAccepted(bufferSize, fromDecimal);
      }
    }

    /** Unpack: the decimal a buffer holds.  A buffer that gets past the checks has its
     *  exponent byte overwritten with the sign fill; the word buffer is scratch space. */
    method Unpack(fromBytes: array<byte>) returns (r: Result<SqlDecimal>)
      requires Valid()
      modifies fromBytes, intBuffer
      ensures r == UnpackedDecimal(digitCount, bufferSize, old(fromBytes[..]))
      ensures UnpackAccepts(bufferSize, old(fromBytes[..])) ==>
        fromBytes[..] == SignSettled(bufferSize, old(fromBytes[..]))
      ensures !UnpackAccepts(bufferSize, old(fromBytes[..])) ==> unchanged(fromBytes)
    {
      if fromBytes.Length != bufferSize {
        return Failure(Argument);
      }
      if significandBytes < 0 {
        // the read of the exponent byte, fromBytes[-1]
        return Failure(IndexOutOfRange);
      }
      WholeWords(bufferSize);
      ghost var bytes := fromBytes[..];
      ghost var significand := bytes[..significandBytes];
      var scale := NegatedScale(fromBytes[significandBytes]);
      // the top bit of the significand's last byte is its sign
      var signMask := if fromBytes[significandBytes - 1] < 0x80 then 0 else -1;
      TopByteSign(significand);
      assert SignByte(signMask) == SignFill(signMask == -1);
      var extended := HighBytesAreSign(fromBytes[..significandBytes], SignByte(signMask));
      if !extended {
        return Failure(InvalidCast);
      }
      fromBytes[significandBytes] := SignByte(signMask);
      var count := Min(bufferSize, SqlDecimalByteCount);
      UnapplySignFromSigned(fromBytes[..], intBuffer, count, signMask);
      var magnitude := Value(intBuffer[..]);
      UnpackedMagnitude(bytes, fromBytes[..], intBuffer[..], signMask == -1);
      UnpackAccepted(digitCount, bufferSize, bytes, magnitude, signMask == -1);
      r := NewSqlDecimal(Max(scale, Min(digitCount, SqlDecimalPrecisionLimit)), scale, signMask == 0, magnitude);
    }

    /** Unpack's scan of the significand's bytes past the 16th: each must be the sign fill. */
    static method HighBytesAreSign(significand: seq<byte>, fill: byte) returns (ok: bool)
      ensures ok <==> forall i :: SqlDecimalByteCount <= i < |significand| ==> significand[i] == fill
    {
      var i := SqlDecimalByteCount;
      while i < |significand|
        invariant SqlDecimalByteCount <= i <= Max(SqlDecimalByteCount, |significand|)
        invariant forall j :: SqlDecimalByteCount <= j < i ==> significand[j] == fill
      {
        if significand[i] != fill {
          return false;
        }
        i := i + 1;
      }
      return true;
    }

    /** Pack's checks, in the library's order: the buffer's length, the scan for nonzero
     *  magnitude bytes past the significand, and the sign bit of the significand. */
    method CheckPackable(fromDecimal: SqlDecimal, length: nat) returns (r: Result<()>)
      requires Valid() && fromDecimal.Valid()
      ensures var expected := PackedDecimal(bufferSize, length, fromDecimal);
        r == if expected.Success? then Success(()) else Failure(expected.error)
    {
      if length != bufferSize {
        return Failure(Argument);
      }
      if significandBytes < 0 {
        // the scan's first read, of the magnitude's byte -1
        return Failure(IndexOutOfRange);
      }
      WholeWords(bufferSize);
      MagnitudeBounds(fromDecimal);
      var fits := MagnitudeFits(fromDecimal.magnitude, bufferSize);
      if !fits {
        return Failure(InvalidCast);
      }
      return Success(());
    }

    /** The two scans of Pack over the magnitude's 16 bytes: those from the exponent
     *  byte's position on must be zero, and (the correction) the significand's top bit,
     *  its sign, must be clear. */
    static method MagnitudeFits(m: nat, bufferSize: int) returns (fits: bool)
      requires bufferSize >= 2 && m < MagnitudeModulus && m < 0x80 * Pow(0x100, 15)
      ensures fits <==> m < 0x80 * Pow(0x100, bufferSize - 2)
    {
      var significandBytes := bufferSize - 1;
      var fromBytes := ToLE(m, SqlDecimalByteCount);
      var zeroFrom := ZeroFrom(fromBytes, significandBytes);
      if zeroFrom < SqlDecimalByteCount {
        PackOverflows(m, bufferSize, fromBytes, zeroFrom);
        return false;
      }
      if significandBytes < SqlDecimalByteCount && fromBytes[significandBytes - 1] >= 0x80 {
        PackOverflows(m, bufferSize, fromBytes, significandBytes - 1);
        return false;
      }
      PackFits(m, bufferSize, fromBytes);
      return true;
    }

    /** Pack's scan of the magnitude's bytes from `start` on: the first that is not zero,
     *  or 16 when they all are. */
    static method ZeroFrom(bytes: seq<byte>, start: nat) returns (i: nat)
      requires |bytes| == SqlDecimalByteCount
      ensures start <= i <= Max(start, SqlDecimalByteCount)
      ensures i < SqlDecimalByteCount ==> bytes[i] != 0
      ensures forall j :: start <= j < i ==> bytes[j] == 0
    {
      i := start;
      while i < SqlDecimalByteCount
        invariant start <= i <= Max(start, SqlDecimalByteCount)
        invariant forall j :: start <= j < i ==> bytes[j] == 0
      {
        if bytes[i] != 0 {
          return;
        }
        i := i + 1;
      }
    }

    /** Pack's stores, for a value already known to fit: the sign applied to the
     *  magnitude's bytes, then the exponent byte. */
    method StoreFitting(fromDecimal: SqlDecimal, toBytes: array<byte>)
      requires Valid() && fromDecimal.Valid() && toBytes.Length == bufferSize && bufferSize > 0
      requires fromDecimal.magnitude < 0x80 * Pow(0x100, bufferSize - 2)
      requires bufferSize <= SqlDecimalByteCount ==> fromDecimal.magnitude < Pow(0x100, bufferSize - 1)
      modifies toBytes
      ensures toBytes[..] == EncodeSigned(fromDecimal.Signed(), bufferSize - 1) + [NegatedScale(fromDecimal.scale)]
    {
      var fromBytes := ToLE(fromDecimal.magnitude, SqlDecimalByteCount);
      var count := Min(bufferSize, SqlDecimalByteCount);
      var signMask := if fromDecimal.positive then 0 else -1;
      ApplySignToUnsigned(fromBytes, toBytes, count, signMask);
      ghost var t := toBytes[..];
      PackedSignificand(fromDecimal, bufferSize, t);
      var exponent := NegatedScale(fromDecimal.scale);
      toBytes[significandBytes] := exponent;
      assert toBytes[..] == t[significandBytes := exponent];
      ReplaceLast(t, exponent);
    }
  }
}
