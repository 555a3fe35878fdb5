/** Sign arithmetic on little-endian multi-word integers: turning a magnitude into
 *  its two's-complement negation (or copying it) a 32-bit word at a time with a
 *  carry, and back. */
module BufferUtils {
  import opened Bytes

  const WordBase := 0x1_0000_0000

  /** A 32-bit word read from four little-endian bytes. */
  function Word(bs: seq<byte>): uint32
    requires |bs| == 4
  {
    PowValues();
    FromLE(bs)
  }

  /** The little-endian bytes of a sequence of words. */
  function WordBytes(ws: seq<uint32>): (r: seq<byte>)
    ensures |r| == 4 * |ws|
  {
    if |ws| == 0 then [] else WordBytes(ws[..|ws| - 1]) + ToLE(ws[|ws| - 1], 4)
  }

  /** The first `count` words of a byte buffer (a byte pointer read as an int pointer). */
  function WordsOf(bs: seq<byte>, count: nat): (r: seq<uint32>)
    requires 4 * count <= |bs|
    ensures |r| == count
  {
    if count == 0 then [] else WordsOf(bs, count - 1) + [Word(bs[4 * (count - 1)..4 * count])]
  }

  /** The words of a buffer are its bytes again. */
  lemma {:induction false} WordBytesOfWords(bs: seq<byte>, count: nat)
    requires 4 * count <= |bs|
    ensures WordBytes(WordsOf(bs, count)) == bs[..4 * count]
  {
    if count > 0 {
      var ws := WordsOf(bs, count);
      assert ws[..count - 1] == WordsOf(bs, count - 1);
      WordBytesOfWords(bs, count - 1);
      var last := bs[4 * (count - 1)..4 * count];
      PowValues();
      ToLEFromLE(last);
      assert bs[..4 * count] == bs[..4 * (count - 1)] + last;
    }
  }

  /** The unsigned integer a sequence of words denotes, least significant first. */
  function Value(ws: seq<uint32>): nat
  {
    FromLE(WordBytes(ws))
  }

  lemma ValueSnoc(ws: seq<uint32>, w: uint32)
    ensures Value(ws + [w]) == Value(ws) + Pow(0x100, 4 * |ws|) * w
  {
    assert (ws + [w])[..|ws|] == ws;
    var a, b := WordBytes(ws), ToLE(w, 4);
    assert WordBytes(ws + [w]) == a + b;
    FromLEAppend(a, b);
    FromLEToLE(w, 4);
    PowValues();
    DivModUnique(w, Pow(0x100, 4), 0, w);
    assert FromLE(b) == w;
  }

  /** Zero words at the top do not change the value. */
  lemma {:induction false} ValueZeroTail(ws: seq<uint32>, k: nat)
    requires k <= |ws| && forall i :: k <= i < |ws| ==> ws[i] == 0
    ensures Value(ws) == Value(ws[..k])
  {
    if |ws| > k {
      var init := ws[..|ws| - 1];
      assert ws == init + [0];
      ValueSnoc(init, 0);
      assert init[..k] == ws[..k];
      ValueZeroTail(init, k);
    } else {
      assert ws[..k] == ws;
    }
  }

  /** The two's-complement negation of `v` modulo `m`. */
  function Negation(v: nat, m: nat): (r: nat)
    requires m > 0
    ensures r < m
  {
    (-(v as int)) % m
  }

  lemma NegationOfBelow(v: nat, m: nat)
    requires 0 <= v < m
    ensures Negation(v, m) == if v == 0 then 0 else m - v
  {
    if v > 0 {
      DivModUnique(-(v as int), m, -1, m - v);
    }
  }

  /** Negation is an involution, which is why unapplying a sign after applying it
   *  restores the magnitude. */
  lemma NegationInvolution(v: nat, m: nat)
    requires 0 <= v < m
    ensures Negation(Negation(v, m), m) == v
  {
    NegationOfBelow(v, m);
    NegationOfBelow(Negation(v, m), m);
  }

  /** What the first words of the negation look like: nothing carried while the
   *  magnitude's low words are zero, a borrow of one after. */
  ghost predicate NegatedSoFar(xs: seq<uint32>, ts: seq<uint32>, carry: int)
  {
    var x := Value(xs);
    (carry == 0 || carry == -1) && (carry == 0 <==> x == 0) &&
    Value(ts) == if x == 0 then 0 else Pow(0x100, 4 * |xs|) - x
  }

  /** One word of the carry loop, on the integers denoted so far: `p` is the weight
   *  of the next word, `xv` and `tv` the magnitude and result so far. */
  lemma NegationStepArith(p: nat, xv: nat, tv: nat, carry: int, x: nat)
    requires p > 0 && xv < p && x < WordBase && (carry == 0 || carry == -1)
    requires (carry == 0 <==> xv == 0) && tv == (if xv == 0 then 0 else p - xv)
    ensures var tc := (WordBase - x) % WordBase;
      var t := (tc + carry) % WordBase;
      var carry' := if tc == 0 then carry else -1;
      (carry' == 0 <==> xv + p * x == 0) &&
      tv + p * t == if xv + p * x == 0 then 0 else p * WordBase - (xv + p * x)
  {
    var tc := (WordBase - x) % WordBase;
    var t := (tc + carry) % WordBase;
    if x == 0 {
      if carry == -1 {
        assert t == WordBase - 1;
        assert p * t == p * WordBase - p;
      }
    } else {
      assert tc == WordBase - x;
      MulAtLeast(p, x);
      if carry == 0 {
        assert p * tc == p * WordBase - p * x;
      } else {
        assert t == WordBase - x - 1;
        assert p * t == p * WordBase - p * x - p;
      }
    }
  }

  lemma NegationStep(xs: seq<uint32>, ts: seq<uint32>, carry: int, x: uint32)
    requires NegatedSoFar(xs, ts, carry) && |xs| == |ts|
    ensures var tc := (WordBase - x) % WordBase;
      NegatedSoFar(xs + [x], ts + [(tc + carry) % WordBase], if tc == 0 then carry else -1)
  {
    var tc := (WordBase - x) % WordBase;
    var t := (tc + carry) % WordBase;
    var p := Pow(0x100, 4 * |xs|);
    ValueSnoc(xs, x);
    ValueSnoc(ts, t);
    PowValues();
    PowAdd(0x100, 4 * |xs|, 4);
    assert Pow(0x100, 4 * |xs + [x]|) == p * WordBase;
    assert Value(xs) < p by { assert |WordBytes(xs)| == 4 * |xs|; }
    NegationStepArith(p, Value(xs), Value(ts), carry, x);
  }

  /** ApplySignMultiplierToTwosComplement: with mask 0 the `count` words are copied;
   *  with mask -1 they become the two's-complement negation of the integer they
   *  denote, modulo 2^(32 count).  Word arithmetic wraps as C# int arithmetic does. */
  method ApplySignMultiplierToTwosComplement(source: seq<uint32>, count: nat, signMask: int) returns (target: seq<uint32>)
    requires count <= |source| && (signMask == 0 || signMask == -1)
    ensures |target| == count
    ensures signMask == 0 ==> target == source[..count]
    ensures signMask == -1 ==> Value(target) == Negation(Value(source[..count]), Pow(0x100, 4 * count))
  {
    target := [];
    var carry := 0;
    var i := 0;
    while i < count
      invariant i <= count && |target| == i
      invariant signMask == 0 ==> target == source[..i] && carry == 0
      invariant signMask == -1 ==> NegatedSoFar(source[..i], target, carry)
    {
      // (x ^ mask) - mask is x for mask 0, and -x (wrapping) for mask -1.
      var twosComplement := if signMask == 0 then source[i] else (WordBase - source[i]) % WordBase;
      if signMask == -1 {
        NegationStep(source[..i], target, carry, source[i]);
      }
      target := target + [(twosComplement + carry) % WordBase];
      carry := if twosComplement == 0 then carry else signMask;
      assert source[..i + 1] == source[..i] + [source[i]];
      i := i + 1;
    }
    if signMask == -1 {
      assert |WordBytes(source[..count])| == 4 * count;
      NegationOfBelow(Value(source[..count]), Pow(0x100, 4 * count));
    }
  }

  /** The byte a sign mask is cast to: 0x00 or 0xFF. */
  function SignByte(signMask: int): byte
  {
    signMask % 0x100
  }

  /** The `n`-byte two's-complement pattern of a magnitude with a sign. */
  function SignApplied(magnitude: nat, n: nat, negative: bool): (r: seq<byte>)
    ensures |r| == n
  {
    ToLE(if negative then Negation(magnitude, Pow(0x100, n)) else magnitude, n)
  }

  /** The pattern is the ordinary little-endian two's complement of the signed
   *  value, as BitConverter gives it. */
  lemma SignAppliedIsTwosComplement(magnitude: nat, n: nat, negative: bool)
    requires magnitude < Pow(0x100, n)
    ensures SignApplied(magnitude, n, negative) == EncodeSigned(if negative then -(magnitude as int) else magnitude, n)
  {
    DivModUnique(magnitude, Pow(0x100, n), 0, magnitude);
  }

  /** Unapplying the same sign after applying it restores the magnitude. */
  lemma SignAppliedInvolution(magnitude: nat, n: nat, negative: bool)
    requires magnitude < Pow(0x100, n)
    ensures SignApplied(FromLE(SignApplied(magnitude, n, negative)), n, negative) == ToLE(magnitude, n)
  {
    var m := Pow(0x100, n);
    var v := if negative then Negation(magnitude, m) else magnitude;
    FromLEToLE(v, n);
    DivModUnique(v, m, 0, v);
    if negative {
      NegationInvolution(magnitude, m);
    }
  }

  /** The words a mask turns the first `byteCount` bytes of `source` into, as bytes. */
  lemma AppliedWordBytes(source: seq<byte>, byteCount: nat, signMask: int, words: seq<uint32>)
    requires byteCount % 4 == 0 && byteCount <= |source| && (signMask == 0 || signMask == -1)
    requires |words| == byteCount / 4
    requires signMask == 0 ==> words == WordsOf(source, byteCount / 4)[..byteCount / 4]
    requires signMask == -1 ==> Value(words) == Negation(Value(WordsOf(source, byteCount / 4)[..byteCount / 4]), Pow(0x100, 4 * (byteCount / 4)))
    ensures WordBytes(words) == SignApplied(FromLE(source[..byteCount]), byteCount, signMask == -1)
  {
    var count := byteCount / 4;
    var ws := WordsOf(source, count);
    assert ws[..count] == ws;
    WordBytesOfWords(source, count);
    ToLEFromLE(WordBytes(words));
  }

  /** ApplySignToUnsigned: the two's-complement pattern of the first `byteCount`
   *  bytes, then the sign byte to the end of `target` (a sign extension). */
  method ApplySignToUnsigned(source: seq<byte>, target: array<byte>, byteCount: nat, signMask: int)
    requires byteCount % 4 == 0 && target.Length % 4 == 0
    requires byteCount <= |source| && byteCount <= target.Length
    requires signMask == 0 || signMask == -1
    modifies target
    ensures target[..byteCount] == SignApplied(FromLE(source[..byteCount]), byteCount, signMask == -1)
    ensures forall i :: byteCount <= i < target.Length ==> target[i] == SignByte(signMask)
  {
    var words := ApplySignMultiplierToTwosComplement(WordsOf(source, byteCount / 4), byteCount / 4, signMask);
    AppliedWordBytes(source, byteCount, signMask, words);
    var bytes := WordBytes(words);
    var i := 0;
    while i < byteCount
      invariant i <= byteCount && target[..i] == bytes[..i]
    {
      target[i] := bytes[i];
      i := i + 1;
    }
    while i < target.Length
      invariant byteCount <= i <= target.Length && target[..byteCount] == bytes
      invariant forall j :: byteCount <= j < i ==> target[j] == SignByte(signMask)
    {
      target[i] := SignByte(signMask);
      i := i + 1;
    }
  }

  /** UnapplySignFromSigned: the words of the magnitude (or value) of the first
   *  `byteCount` bytes, and zero words to the end of `target`. */
  method UnapplySignFromSigned(source: seq<byte>, target: array<uint32>, byteCount: nat, signMask: int)
    requires byteCount % 4 == 0 && byteCount <= |source| && byteCount / 4 <= target.Length
    requires signMask == 0 || signMask == -1
    modifies target
    ensures WordBytes(target[..byteCount / 4]) == SignApplied(FromLE(source[..byteCount]), byteCount, signMask == -1)
    ensures forall i :: byteCount / 4 <= i < target.Length ==> target[i] == 0
  {
    var count := byteCount / 4;
    var words := ApplySignMultiplierToTwosComplement(WordsOf(source, count), count, signMask);
    AppliedWordBytes(source, byteCount, signMask, words);
    var i := 0;
    while i < count
      invariant i <= count && target[..i] == words[..i]
    {
      target[i] := words[i];
      i := i + 1;
    }
    assert target[..count] == words;
    while i < target.Length
      invariant count <= i <= target.Length && target[..count] == words
      invariant forall j :: count <= j < i ==> target[j] == 0
    {
      target[i] := 0;
      i := i + 1;
    }
  }

  /** The byte patterns of the unit tests' values. */
  lemma SignAppliedExamples()
    ensures SignApplied(9, 8, true) == [0xF7, 0xFF, 0xFF, 0xFF, 0xFF, 0xFF, 0xFF, 0xFF]
    ensures SignApplied(494336, 8, true) == [0x00, 0x75, 0xF8, 0xFF, 0xFF, 0xFF, 0xFF, 0xFF]
  {
    PowValues();
    assert Negation(9, Pow(0x100, 8)) == 0xFFFF_FFFF_FFFF_FFF7;
    assert Negation(494336, Pow(0x100, 8)) == 0xFFFF_FFFF_FFF8_7500;
  }
}
