/** Encoding.UTF8: a string's bytes, and the string decoded from bytes.  A string
 *  is a sequence of Unicode scalar values.  Decoding replaces each ill-formed
 *  stretch by U+FFFD, one for each maximal subpart of a well-formed sequence, as
 *  section 3.9 of the Unicode Standard recommends. */
module Utf8 {
  import opened Bytes

  const ReplacementCharacter: char := '�'

  /** The one to four bytes of a scalar value. */
  function EncodeChar(c: char): (r: seq<byte>)
    ensures 1 <= |r| <= 4
    ensures |r| == 1 <==> (c as int) < 0x80
  {
    var v := c as int;
    if v < 0x80 then [v]
    else if v < 0x800 then [0xC0 + v / 64, 0x80 + v % 64]
    else if v < 0x1_0000 then [0xE0 + v / 4096, 0x80 + (v / 64) % 64, 0x80 + v % 64]
    else [0xF0 + v / 262144, 0x80 + (v / 4096) % 64, 0x80 + (v / 64) % 64, 0x80 + v % 64]
  }

  /** Encoding.UTF8.GetBytes. */
  function Encode(s: string): (r: seq<byte>)
    ensures |r| >= |s|
  {
    if |s| == 0 then [] else EncodeChar(s[0]) + Encode(s[1..])
  }

  predicate IsContinuation(b: byte)
  {
    0x80 <= b < 0xC0
  }

  /** The range the second byte of a sequence led by `lead` must fall in: the
   *  bounds exclude overlong forms, surrogates and values above U+10FFFF. */
  function SecondLow(lead: byte): byte
  {
    if lead == 0xE0 then 0xA0 else if lead == 0xF0 then 0x90 else 0x80
  }

  function SecondHigh(lead: byte): byte
  {
    if lead == 0xED then 0x9F else if lead == 0xF4 then 0x8F else 0xBF
  }

  /** The scalar value at the start of `bs`, and how many bytes it took; a
   *  replacement character takes the bytes of the maximal subpart it replaces. */
  function DecodeOne(bs: seq<byte>): (r: (char, nat))
    requires |bs| > 0
    ensures 1 <= r.1 <= |bs|
  {
    var b0: int := bs[0];
    if b0 < 0x80 then (b0 as char, 1)
    else if 0xC2 <= b0 <= 0xDF then
      if |bs| >= 2 && IsContinuation(bs[1]) then (((b0 - 0xC0) * 64 + (bs[1] as int - 0x80)) as char, 2)
      else (ReplacementCharacter, 1)
    else if 0xE0 <= b0 <= 0xEF then
      if |bs| >= 2 && SecondLow(b0) <= bs[1] <= SecondHigh(b0) then
        if |bs| >= 3 && IsContinuation(bs[2]) then
          (((b0 - 0xE0) * 4096 + (bs[1] as int - 0x80) * 64 + (bs[2] as int - 0x80)) as char, 3)
        else (ReplacementCharacter, 2)
      else (ReplacementCharacter, 1)
    else if 0xF0 <= b0 <= 0xF4 then
      if |bs| >= 2 && SecondLow(b0) <= bs[1] <= SecondHigh(b0) then
        if |bs| >= 3 && IsContinuation(bs[2]) then
          if |bs| >= 4 && IsContinuation(bs[3]) then
            (((b0 - 0xF0) * 262144 + (bs[1] as int - 0x80) * 4096 + (bs[2] as int - 0x80) * 64 + (bs[3] as int - 0x80)) as char, 4)
          else (ReplacementCharacter, 3)
        else (ReplacementCharacter, 2)
      else (ReplacementCharacter, 1)
    else (ReplacementCharacter, 1)
  }

  /** Encoding.UTF8.GetString. */
  function Decode(bs: seq<byte>): (r: string)
    ensures |r| <= |bs|
    decreases |bs|
  {
    if |bs| == 0 then ""
    else
      var (c, n) := DecodeOne(bs);
      [c] + Decode(bs[n..])
  }

  /** Decoding the first character's bytes gives that character back, whatever
   *  follows. */
  lemma DecodeEncodedChar(c: char, rest: seq<byte>)
    ensures DecodeOne(EncodeChar(c) + rest) == (c, |EncodeChar(c)|)
  {
    var v := c as int;
    if v < 0x80 {
    } else if v < 0x800 {
      DecodeTwoBytes(c, rest);
    } else if v < 0x1_0000 {
      DecodeThreeBytes(c, rest);
    } else {
      DecodeFourBytes(c, rest);
    }
  }

  lemma DecodeTwoBytes(c: char, rest: seq<byte>)
    requires 0x80 <= c as int < 0x800
    ensures DecodeOne(EncodeChar(c) + rest) == (c, 2)
  {
    var v := c as int;
    var a := v / 64;
    var d := v - 64 * a;
    DivModUnique(v, 64, a, d);
    var bs := EncodeChar(c) + rest;
    assert bs[0] == 0xC0 + a && bs[1] == 0x80 + d;
  }

  lemma DecodeThreeBytes(c: char, rest: seq<byte>)
    requires 0x800 <= c as int < 0x1_0000
    ensures DecodeOne(EncodeChar(c) + rest) == (c, 3)
  {
    var v := c as int;
    var a := v / 4096;
    var r := v - 4096 * a;
    var b := r / 64;
    var d := r - 64 * b;
    DivModUnique(v, 4096, a, r);
    DivModUnique(r, 64, b, d);
    DivModUnique(v, 64, 64 * a + b, d);
    DivModUnique(v / 64, 64, a, b);
    var bs := EncodeChar(c) + rest;
    assert bs[0] == 0xE0 + a && bs[1] == 0x80 + b && bs[2] == 0x80 + d;
  }

  lemma DecodeFourBytes(c: char, rest: seq<byte>)
    requires 0x1_0000 <= c as int
    ensures DecodeOne(EncodeChar(c) + rest) == (c, 4)
  {
    var v := c as int;
    var a := v / 262144;
    var r := v - 262144 * a;
    var b := r / 4096;
    var r' := r - 4096 * b;
    var d := r' / 64;
    var e := r' - 64 * d;
    DivModUnique(v, 262144, a, r);
    DivModUnique(r, 4096, b, r');
    DivModUnique(r', 64, d, e);
    DivModUnique(v, 4096, 64 * a + b, r');
    DivModUnique(v / 4096, 64, a, b);
    DivModUnique(v, 64, 4096 * a + 64 * b + d, e);
    DivModUnique(v / 64, 64, 64 * a + b, d);
    var bs := EncodeChar(c) + rest;
    assert bs[0] == 0xF0 + a && bs[1] == 0x80 + b && bs[2] == 0x80 + d && bs[3] == 0x80 + e;
  }

  /** GetString undoes GetBytes. */
  lemma {:induction false} DecodeEncode(s: string)
    ensures Decode(Encode(s)) == s
  {
    if |s| > 0 {
      var first, rest := EncodeChar(s[0]), Encode(s[1..]);
      DecodeEncodedChar(s[0], rest);
      assert (first + rest)[|first|..] == rest;
      DecodeEncode(s[1..]);
    }
  }

  /** A byte that cannot start a sequence decodes, on its own, as U+FFFD. */
  lemma DecodeStrayByte(b: byte)
    requires 0x80 <= b < 0xC2 || 0xF5 <= b
    ensures Decode([b]) == [ReplacementCharacter]
  {
    var bs: seq<byte> := [b];
    assert DecodeOne(bs) == (ReplacementCharacter, 1);
    assert bs[1..] == [];
  }

  /** An ASCII string's bytes are its characters. */
  lemma {:induction false} EncodeAscii(s: string)
    requires forall i :: 0 <= i < |s| ==> (s[i] as int) < 0x80
    ensures |Encode(s)| == |s| && forall i :: 0 <= i < |s| ==> Encode(s)[i] == s[i] as int
  {
    if |s| > 0 {
      EncodeAscii(s[1..]);
    }
  }
}
