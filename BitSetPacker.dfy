/** A sparse bit set: the booleans that a list of indexes selects from a larger
 *  array, packed eight to a byte, least significant bit first.  Element k of the
 *  index list travels as bit k % 8 of byte k / 8.  Booleans the list does not name
 *  are neither packed nor touched by unpacking. */
module BitSets {
  import opened Bytes
  import opened Streams

  /** Bit(j): the byte with only bit j set. */
  function Bit(j: nat): (r: nat)
    ensures r > 0
  {
    Pow(2, j)
  }

  /** `(b & Bit(j)) != 0`. */
  predicate BitOf(b: nat, j: nat)
  {
    (b / Bit(j)) % 2 == 1
  }

  /** Index-list element `k` exists and selects a set boolean. */
  predicate Selected(bits: seq<bool>, indexes: seq<nat>, k: nat)
  {
    k < |indexes| && indexes[k] < |bits| && bits[indexes[k]]
  }

  /** Every index is below `size`: an array of that length has all of them. */
  predicate Fits(indexes: seq<nat>, size: nat)
  {
    forall k :: 0 <= k < |indexes| ==> indexes[k] < size
  }

  /** UnpackedBitCount: one more than the largest index, or 0 for no indexes; so
   *  it is the least array length every index fits in. */
  function UnpackedBitCountOf(indexes: seq<nat>): (r: nat)
    ensures forall size: nat {:trigger Fits(indexes, size)} :: Fits(indexes, size) <==> r <= size
  {
    if |indexes| == 0 then 0
    else
      var rest := UnpackedBitCountOf(indexes[1..]);
      assert forall size: nat {:trigger Fits(indexes, size)} ::
        Fits(indexes, size) <==> indexes[0] < size && Fits(indexes[1..], size) by {
        forall size: nat | Fits(indexes[1..], size) && indexes[0] < size
          ensures Fits(indexes, size)
        {
          assert forall k :: 1 <= k < |indexes| ==> indexes[k] == indexes[1..][k - 1];
        }
      }
      if indexes[0] < rest then rest else indexes[0] + 1
  }

  /** PackedByteCount: the bytes needed for one bit per index. */
  function PackedByteCountOf(indexes: seq<nat>): (r: nat)
    ensures |indexes| <= 8 * r < |indexes| + 8
  {
    (|indexes| + 8 - 1) / 8
  }

  /** The low `j` bits of packed byte `i`: bit j' is set iff element 8i + j' of the
   *  index list selects a set boolean. */
  function PackedBits(bits: seq<bool>, indexes: seq<nat>, i: nat, j: nat): (r: nat)
    ensures r < Pow(2, j)
  {
    if j == 0 then 0
    else PackedBits(bits, indexes, i, j - 1) + (if Selected(bits, indexes, 8 * i + j - 1) then Bit(j - 1) else 0)
  }

  /** Byte `i` of the packed bit set. */
  function PackedByte(bits: seq<bool>, indexes: seq<nat>, i: nat): byte
  {
    assert Pow(2, 8) == 0x100;
    PackedBits(bits, indexes, i, 8)
  }

  /** Adding an even multiple of `p` leaves the parity of the quotient by `p` alone. */
  lemma QuotientParity(v: nat, p: nat, m: nat)
    requires p > 0
    ensures ((v + p * (2 * m)) / p) % 2 == (v / p) % 2
  {
    var q, rem := v / p, v % p;
    assert v + p * (2 * m) == p * (q + 2 * m) + rem;
    DivModUnique(v + p * (2 * m), p, q + 2 * m, rem);
    DivModUnique(q + 2 * m, 2, q / 2 + m, q % 2);
  }

  /** Adding bit `k` to a value below 2^k sets bit k and keeps the lower bits. */
  lemma BitOfAdd(v: nat, k: nat, isSet: bool, j: nat)
    requires v < Pow(2, k) && j <= k
    ensures BitOf(v + (if isSet then Bit(k) else 0), j) == if j == k then isSet else BitOf(v, j)
  {
    var pj := Pow(2, j);
    if j == k {
      if isSet {
        DivModUnique(v + pj, pj, 1, v);
      } else {
        DivModUnique(v, pj, 0, v);
      }
    } else if isSet {
      var m := Pow(2, k - j - 1);
      PowAdd(2, j, k - j);
      assert Pow(2, k) == pj * (2 * m);
      QuotientParity(v, pj, m);
    }
  }

  /** The bits of a packed byte are the selected booleans. */
  lemma {:induction false} PackedBitsMeaning(bits: seq<bool>, indexes: seq<nat>, i: nat, n: nat, j: nat)
    requires j < n
    ensures BitOf(PackedBits(bits, indexes, i, n), j) == Selected(bits, indexes, 8 * i + j)
  {
    BitOfAdd(PackedBits(bits, indexes, i, n - 1), n - 1, Selected(bits, indexes, 8 * i + n - 1), j);
    if j < n - 1 {
      PackedBitsMeaning(bits, indexes, i, n - 1, j);
    }
  }

  /** Bit j of packed byte i is the boolean at index-list element 8i + j, and is
   *  clear past the end of the list. */
  lemma PackedByteMeaning(bits: seq<bool>, indexes: seq<nat>, i: nat, j: nat)
    requires j < 8
    ensures BitOf(PackedByte(bits, indexes, i), j) == Selected(bits, indexes, 8 * i + j)
    ensures 8 * i + j >= |indexes| ==> !BitOf(PackedByte(bits, indexes, i), j)
  {
    PackedBitsMeaning(bits, indexes, i, 8, j);
  }

  /** Bits with no index-list element behind them add nothing. */
  lemma {:induction false} PackedBitsPastEnd(bits: seq<bool>, indexes: seq<nat>, i: nat, j: nat, n: nat)
    requires j <= n && 8 * i + j >= |indexes|
    ensures PackedBits(bits, indexes, i, n) == PackedBits(bits, indexes, i, j)
  {
    if j < n {
      PackedBitsPastEnd(bits, indexes, i, j, n - 1);
    }
  }

  /** A byte wholly past the last index is zero. */
  lemma PackedByteOfNothing(bits: seq<bool>, indexes: seq<nat>, i: nat)
    requires 8 * i >= |indexes|
    ensures PackedByte(bits, indexes, i) == 0
  {
    PackedBitsPastEnd(bits, indexes, i, 0, 8);
  }

  /** Unpacking the first `n` index-list elements, in order, into `bits`: element k
   *  stores bit k % 8 of byte k / 8 at position indexes[k]. */
  function Unpacked(bits: seq<bool>, bytes: seq<byte>, indexes: seq<nat>, n: nat): (r: seq<bool>)
    requires n <= |indexes| && n <= 8 * |bytes| && Fits(indexes, |bits|)
    ensures |r| == |bits|
  {
    if n == 0 then bits
    else Unpacked(bits, bytes, indexes, n - 1)[indexes[n - 1] := BitOf(bytes[(n - 1) / 8], (n - 1) % 8)]
  }

  /** Unpacking leaves every position the first `n` elements do not name alone. */
  lemma {:induction false} UnpackedElsewhere(bits: seq<bool>, bytes: seq<byte>, indexes: seq<nat>, n: nat, p: nat)
    requires n <= |indexes| && n <= 8 * |bytes| && Fits(indexes, |bits|)
    requires p < |bits| && p !in indexes[..n]
    ensures Unpacked(bits, bytes, indexes, n)[p] == bits[p]
  {
    if n > 0 {
      assert indexes[n - 1] in indexes[..n];
      assert indexes[..n - 1] <= indexes[..n];
      UnpackedElsewhere(bits, bytes, indexes, n - 1, p);
    }
  }

  /** No index occurs twice. */
  predicate Distinct(indexes: seq<nat>)
  {
    forall k, l :: 0 <= k < l < |indexes| ==> indexes[k] != indexes[l]
  }

  /** Each index is below the next one. */
  predicate Increasing(indexes: seq<nat>)
  {
    forall k :: 0 <= k < |indexes| - 1 ==> indexes[k] < indexes[k + 1]
  }

  /** Increasing indexes are distinct. */
  lemma IncreasingIsDistinct(indexes: seq<nat>)
    requires Increasing(indexes)
    ensures Distinct(indexes)
  {
    forall k, l | 0 <= k < l < |indexes|
      ensures indexes[k] < indexes[l]
    {
      var m := k;
      while m < l
        invariant k <= m <= l && indexes[k] <= indexes[m]
        invariant m > k ==> indexes[k] < indexes[m]
      {
        m := m + 1;
      }
    }
  }

  /** With distinct indexes, each named position holds its own bit. */
  lemma {:induction false} UnpackedAt(bits: seq<bool>, bytes: seq<byte>, indexes: seq<nat>, n: nat, k: nat)
    requires n <= |indexes| && n <= 8 * |bytes| && Fits(indexes, |bits|)
    requires Distinct(indexes) && k < n
    ensures Unpacked(bits, bytes, indexes, n)[indexes[k]] == BitOf(bytes[k / 8], k % 8)
  {
    if k < n - 1 {
      UnpackedAt(bits, bytes, indexes, n - 1, k);
    }
  }

  /** The bytes hold the packed form of `source` for every index-list element. */
  predicate PackedFrom(bytes: seq<byte>, source: seq<bool>, indexes: seq<nat>)
  {
    8 * |bytes| >= |indexes| &&
    forall i :: 0 <= i < |bytes| ==> bytes[i] == PackedByte(source, indexes, i)
  }

  /** Unpacking what was packed restores every indexed boolean (the indexes being
   *  distinct), whatever the target held before. */
  lemma PackUnpack(source: seq<bool>, target: seq<bool>, bytes: seq<byte>, indexes: seq<nat>, k: nat)
    requires Fits(indexes, |source|) && Fits(indexes, |target|)
    requires Distinct(indexes) && PackedFrom(bytes, source, indexes) && k < |indexes|
    ensures Unpacked(target, bytes, indexes, |indexes|)[indexes[k]] == source[indexes[k]]
  {
    UnpackedAt(target, bytes, indexes, |indexes|, k);
    PackedByteMeaning(source, indexes, k / 8, k % 8);
  }

  /** Unpacking into the very booleans that were packed changes nothing. */
  lemma PackUnpackInPlace(source: seq<bool>, bytes: seq<byte>, indexes: seq<nat>)
    requires Fits(indexes, |source|)
    requires Distinct(indexes) && PackedFrom(bytes, source, indexes)
    ensures Unpacked(source, bytes, indexes, |indexes|) == source
  {
    var r := Unpacked(source, bytes, indexes, |indexes|);
    forall p | 0 <= p < |source|
      ensures r[p] == source[p]
    {
      if p in indexes {
        var k :| 0 <= k < |indexes| && indexes[k] == p;
        PackUnpack(source, source, bytes, indexes, k);
      } else {
        assert indexes[..|indexes|] == indexes;
        UnpackedElsewhere(source, bytes, indexes, |indexes|, p);
      }
    }
  }

  class BitSetPacker {
    const indexes: seq<nat>
    const unpackedBitCount: nat := UnpackedBitCountOf(indexes)

    constructor (indexes: seq<nat>)
      ensures this.indexes == indexes
    {
      this.indexes := indexes;
    }

    function PackedByteCount(): nat
    {
      PackedByteCountOf(indexes)
    }

    /** Pack: byte i of `toBytes` becomes packed byte i, for every byte of it, so
     *  bytes past the last index are zero and index-list elements past the end of
     *  `toBytes` are not packed. */
    method Pack(fromBits: array<bool>, toBytes: array<byte>)
      requires fromBits.Length >= unpackedBitCount
      modifies toBytes
      ensures forall i :: 0 <= i < toBytes.Length ==> toBytes[i] == PackedByte(fromBits[..], indexes, i)
    {
      assert Fits(indexes, fromBits.Length);
      var bitOffset := 0;
      for i := 0 to toBytes.Length
        invariant bitOffset == Min(8 * i, |indexes|)
        invariant forall i' :: 0 <= i' < i ==> toBytes[i'] == PackedByte(fromBits[..], indexes, i')
      {
        var current := 0;
        var j := 0;
        while j < 8
          invariant 0 <= j <= 8 && bitOffset == Min(8 * i + j, |indexes|)
          invariant current == PackedBits(fromBits[..], indexes, i, j)
          invariant forall i' :: 0 <= i' < i ==> toBytes[i'] == PackedByte(fromBits[..], indexes, i')
        {
          if bitOffset >= |indexes| {
            break;
          }
          var index := indexes[bitOffset];
          // bit j of `current` is still clear, so setting it adds Bit(j)
          if fromBits[index] {
            current := current + Bit(j);
          }
          bitOffset := bitOffset + 1;
          j := j + 1;
        }
        if j < 8 {
          PackedBitsPastEnd(fromBits[..], indexes, i, j, 8);
        }
        toBytes[i] := current;
      }
    }

    /** Unpack: for each index-list element k that `fromBytes` has a bit for,
     *  toBits[indexes[k]] becomes that bit; nothing else changes. */
    method Unpack(fromBytes: array<byte>, toBits: array<bool>)
      requires toBits.Length >= unpackedBitCount
      modifies toBits
      ensures toBits[..] == Unpacked(old(toBits[..]), fromBytes[..], indexes, Min(|indexes|, 8 * fromBytes.Length))
    {
      assert Fits(indexes, toBits.Length);
      var bitOffset := 0;
      for i := 0 to fromBytes.Length
        invariant bitOffset == Min(8 * i, |indexes|)
        invariant toBits[..] == Unpacked(old(toBits[..]), fromBytes[..], indexes, bitOffset)
      {
        var current := fromBytes[i];
        var j := 0;
        while j < 8
          invariant 0 <= j <= 8 && bitOffset == Min(8 * i + j, |indexes|)
          invariant toBits[..] == Unpacked(old(toBits[..]), fromBytes[..], indexes, bitOffset)
        {
          if bitOffset >= |indexes| {
            break;
          }
          var index := indexes[bitOffset];
          assert bitOffset / 8 == i && bitOffset % 8 == j;
          toBits[index] := BitOf(current, j);
          bitOffset := bitOffset + 1;
          j := j + 1;
        }
      }
    }
  }

  /** The library's own vector: these indexes pick twelve of twenty booleans. */
  const TestIndexes: seq<nat> := [0, 1, 3, 5, 6, 9, 10, 12, 13, 15, 16, 18]
  const TestBits: seq<bool> := [true, false, true, false, false, true, true, false, true, false,
                                true, false, true, true, false, true, true, true, true, false]

  /** They pack to 0b11011001, 0b00001111, unpack into all-false booleans as the
   *  selected bits alone, and unpack into the original booleans as no change. */
  lemma TestCounts()
    ensures PackedByteCountOf(TestIndexes) == 2 && UnpackedBitCountOf(TestIndexes) == 19
  {
    var u := UnpackedBitCountOf(TestIndexes);
    assert TestIndexes[11] == 18;
  }

  lemma TestPacking()
    ensures PackedByte(TestBits, TestIndexes, 0) == 0xD9 && PackedByte(TestBits, TestIndexes, 1) == 0x0F
  {
    var b, x := TestBits, TestIndexes;
    assert PackedBits(b, x, 0, 1) == 1;
    assert PackedBits(b, x, 0, 2) == 1;
    assert PackedBits(b, x, 0, 3) == 1;
    assert PackedBits(b, x, 0, 4) == 9;
    assert PackedBits(b, x, 0, 5) == 25;
    assert PackedBits(b, x, 0, 6) == 25;
    assert PackedBits(b, x, 0, 7) == 89;
    assert PackedBits(b, x, 0, 8) == 0xD9;
    assert PackedBits(b, x, 1, 1) == 1;
    assert PackedBits(b, x, 1, 2) == 3;
    assert PackedBits(b, x, 1, 3) == 7;
    assert PackedBits(b, x, 1, 4) == 0x0F;
    PackedBitsPastEnd(b, x, 1, 4, 8);
  }

  lemma TestIndexesIncreasing()
    ensures Increasing(TestIndexes)
  {
    var x := TestIndexes;
    assert x[0] < x[1] < x[2] < x[3] < x[4] < x[5] < x[6] < x[7] < x[8] < x[9] < x[10] < x[11];
  }

  /** The test bytes are the packed test booleans. */
  lemma TestPackedFrom(bytes: seq<byte>)
    requires bytes == [0xD9, 0x0F]
    ensures PackedFrom(bytes, TestBits, TestIndexes)
  {
    TestPacking();
    forall i | 0 <= i < |bytes|
      ensures bytes[i] == PackedByte(TestBits, TestIndexes, i)
    {
      if i == 0 {
        assert bytes[i] == 0xD9;
      } else {
        assert bytes[i] == 0x0F;
      }
    }
  }

  /** The test indexes are distinct and fit the test booleans. */
  lemma TestIndexesDistinct()
    ensures Distinct(TestIndexes) && Fits(TestIndexes, |TestBits|)
  {
    TestCounts();
    assert UnpackedBitCountOf(TestIndexes) <= |TestBits|;
    TestIndexesIncreasing();
    IncreasingIsDistinct(TestIndexes);
  }

  /** Unpacking the test bytes into the original booleans changes nothing. */
  lemma TestUnpackingInPlace(bytes: seq<byte>)
    requires bytes == [0xD9, 0x0F]
    ensures Unpacked(TestBits, bytes, TestIndexes, 12) == TestBits
  {
    TestPackedFrom(bytes);
    TestIndexesDistinct();
    PackUnpackInPlace(TestBits, bytes, TestIndexes);
  }

  /** Unpacking the test bytes into all-false booleans sets each selected one to
   *  its value and leaves the others false. */
  lemma TestUnpackedPositions(bytes: seq<byte>, zeros: seq<bool>)
    requires bytes == [0xD9, 0x0F] && zeros == seq(20, _ => false)
    ensures Fits(TestIndexes, |zeros|)
    ensures forall k :: 0 <= k < 12 ==> Unpacked(zeros, bytes, TestIndexes, 12)[TestIndexes[k]] == TestBits[TestIndexes[k]]
    ensures forall p :: p in [2, 4, 7, 8, 11, 14, 17, 19] ==> !Unpacked(zeros, bytes, TestIndexes, 12)[p]
  {
    TestPackedFrom(bytes);
    TestIndexesDistinct();
    forall k | 0 <= k < 12
      ensures Unpacked(zeros, bytes, TestIndexes, 12)[TestIndexes[k]] == TestBits[TestIndexes[k]]
    {
      PackUnpack(TestBits, zeros, bytes, TestIndexes, k);
    }
    forall p | p in [2, 4, 7, 8, 11, 14, 17, 19]
      ensures !Unpacked(zeros, bytes, TestIndexes, 12)[p]
    {
      TestGap(p);
      UnpackedElsewhere(zeros, bytes, TestIndexes, 12, p);
    }
  }

  /** The positions the test indexes leave out. */
  lemma TestGap(p: nat)
    requires p in [2, 4, 7, 8, 11, 14, 17, 19]
    ensures p < 20 && p !in TestIndexes[..12]
  {
    assert TestIndexes[..12] == TestIndexes;
    forall i | 0 <= i < 12
      ensures TestIndexes[i] != p
    {
    }
  }

  /** The booleans the library expects from unpacking the test bytes into all-false
   *  booleans. */
  const TestUnpacked: seq<bool> := [true, false, false, false, false, true, true, false, false, false,
                                    true, false, true, true, false, true, true, false, true, false]

  /** Unpacking the test bytes into all-false booleans gives the library's
   *  expected booleans. */
  lemma TestUnpacking(bytes: seq<byte>, zeros: seq<bool>)
    requires bytes == [0xD9, 0x0F] && zeros == seq(20, _ => false)
    requires Fits(TestIndexes, |zeros|)
    ensures Unpacked(zeros, bytes, TestIndexes, 12) ==
            [true, false, false, false, false, true, true, false, false, false,
             true, false, true, true, false, true, true, false, true, false]
  {
    var r := Unpacked(zeros, bytes, TestIndexes, 12);
    TestUnpackingLow(bytes, zeros);
    TestUnpackingHigh(bytes, zeros);
    assert r == r[..10] + r[10..];
    assert TestUnpacked == TestUnpacked[..10] + TestUnpacked[10..];
  }

  /** The first ten of the expected booleans. */
  lemma TestUnpackingLow(bytes: seq<byte>, zeros: seq<bool>)
    requires bytes == [0xD9, 0x0F] && zeros == seq(20, _ => false)
    ensures |Unpacked(zeros, bytes, TestIndexes, 12)| == 20
    ensures Unpacked(zeros, bytes, TestIndexes, 12)[..10] == TestUnpacked[..10]
  {
    TestUnpackedPositions(bytes, zeros);
    var r := Unpacked(zeros, bytes, TestIndexes, 12);
    var expected := TestUnpacked;
    assert r[0] == expected[0] by { assert TestIndexes[0] == 0; }
    assert r[1] == expected[1] by { assert TestIndexes[1] == 1; }
    assert r[2] == expected[2];
    assert r[3] == expected[3] by { assert TestIndexes[2] == 3; }
    assert r[4] == expected[4];
    assert r[5] == expected[5] by { assert TestIndexes[3] == 5; }
    assert r[6] == expected[6] by { assert TestIndexes[4] == 6; }
    assert r[7] == expected[7];
    assert r[8] == expected[8];
    assert r[9] == expected[9] by { assert TestIndexes[5] == 9; }
  }

  /** The last ten of the expected booleans. */
  lemma TestUnpackingHigh(bytes: seq<byte>, zeros: seq<bool>)
    requires bytes == [0xD9, 0x0F] && zeros == seq(20, _ => false)
    ensures |Unpacked(zeros, bytes, TestIndexes, 12)| == 20
    ensures Unpacked(zeros, bytes, TestIndexes, 12)[10..] == TestUnpacked[10..]
  {
    TestUnpackedPositions(bytes, zeros);
    var r := Unpacked(zeros, bytes, TestIndexes, 12);
    var expected := TestUnpacked;
    assert r[10] == expected[10] by { assert TestIndexes[6] == 10; }
    assert r[11] == expected[11];
    assert r[12] == expected[12] by { assert TestIndexes[7] == 12; }
    assert r[13] == expected[13] by { assert TestIndexes[8] == 13; }
    assert r[14] == expected[14];
    assert r[15] == expected[15] by { assert TestIndexes[9] == 15; }
    assert r[16] == expected[16] by { assert TestIndexes[10] == 16; }
    assert r[17] == expected[17];
    assert r[18] == expected[18] by { assert TestIndexes[11] == 18; }
    assert r[19] == expected[19];
  }
}
