/** Bytes, fixed-width integers and their little-endian two's-complement encodings.
 *  .NET's `BitConverter` on a little-endian host is modelled by `ToLE`/`FromLE`. */
module Bytes {

  type byte = b: int | 0 <= b < 0x100
  type int16 = x: int | -0x8000 <= x < 0x8000
  type uint16 = x: int | 0 <= x < 0x1_0000
  type int32 = x: int | -0x8000_0000 <= x < 0x8000_0000
  type uint32 = x: int | 0 <= x < 0x1_0000_0000
  type int64 = x: int | -0x8000_0000_0000_0000 <= x < 0x8000_0000_0000_0000
  type uint64 = x: int | 0 <= x < 0x1_0000_0000_0000_0000

  function Pow(b: nat, e: nat): (r: nat)
    ensures b > 0 ==> r > 0
  {
    if e == 0 then 1 else b * Pow(b, e - 1)
  }

  /** The moduli of the 8-, 16-, 32-, 64- and 128-bit integers. */
  lemma PowValues()
    ensures Pow(0x100, 1) == 0x100 && Pow(0x100, 2) == 0x1_0000 && Pow(0x100, 4) == 0x1_0000_0000
    ensures Pow(0x100, 8) == 0x1_0000_0000_0000_0000
    ensures Pow(0x100, 16) == 0x1_0000_0000_0000_0000_0000_0000_0000_0000
  {
  }

  lemma {:induction false} PowAdd(b: nat, m: nat, n: nat)
    ensures Pow(b, m + n) == Pow(b, m) * Pow(b, n)
  {
    if m > 0 {
      PowAdd(b, m - 1, n);
      assert Pow(b, m + n) == b * Pow(b, m - 1 + n);
    }
  }

  lemma {:induction false} PowStrictlyIncreasing(b: nat, m: nat, n: nat)
    requires b > 1 && m < n
    ensures Pow(b, m) < Pow(b, n)
  {
    if m < n - 1 {
      PowStrictlyIncreasing(b, m, n - 1);
    }
  }

  lemma {:induction false} MulAtLeast(m: int, d: int)
    requires m > 0 && d >= 1
    ensures m * d >= m
  {
    if d > 1 {
      MulAtLeast(m, d - 1);
      assert m * d == m * (d - 1) + m;
    }
  }

  /** The division theorem: quotient and remainder are unique. */
  lemma DivModUnique(a: int, m: int, q: int, r: int)
    requires m > 0 && 0 <= r < m && a == m * q + r
    ensures a / m == q && a % m == r
  {
    var q', r' := a / m, a % m;
    assert a == m * q' + r';
    if q' < q {
      MulAtLeast(m, q - q');
    } else if q' > q {
      MulAtLeast(m, q' - q);
    }
  }

  lemma ModOfProduct(a: nat, b: nat, c: nat)
    requires b > 0 && c > 0
    ensures a % (b * c) == a % b + b * ((a / b) % c)
    ensures a / (b * c) == (a / b) / c
  {
    var q := a / b;
    var r := a % b;
    var q1, r1 := q / c, q % c;
    assert a == b * q + r;
    assert q == c * q1 + r1;
    assert b * q == (b * c) * q1 + b * r1;
    assert b * r1 <= b * (c - 1);
    assert b * (c - 1) == b * c - b;
    DivModUnique(a, b * c, q1, b * r1 + r);
  }

  /** `v` modulo 256^n as `n` little-endian bytes. */
  function ToLE(v: nat, n: nat): (r: seq<byte>)
    ensures |r| == n
  {
    if n == 0 then [] else [v % 0x100] + ToLE(v / 0x100, n - 1)
  }

  /** The unsigned little-endian reading of `bs`. */
  function FromLE(bs: seq<byte>): (r: nat)
    ensures r < Pow(0x100, |bs|)
  {
    if |bs| == 0 then 0 else bs[0] + 0x100 * FromLE(bs[1..])
  }

  lemma {:induction false} FromLEToLE(v: nat, n: nat)
    ensures FromLE(ToLE(v, n)) == v % Pow(0x100, n)
  {
    if n > 0 {
      FromLEToLE(v / 0x100, n - 1);
      ModOfProduct(v, 0x100, Pow(0x100, n - 1));
      assert ToLE(v, n)[1..] == ToLE(v / 0x100, n - 1);
    }
  }

  lemma {:induction false} ToLEFromLE(bs: seq<byte>)
    ensures ToLE(FromLE(bs), |bs|) == bs
  {
    if |bs| > 0 {
      var v := FromLE(bs);
      DivModUnique(v, 0x100, FromLE(bs[1..]), bs[0]);
      ToLEFromLE(bs[1..]);
      assert bs == [bs[0]] + bs[1..];
    }
  }

  lemma {:induction false} FromLEAppend(a: seq<byte>, b: seq<byte>)
    ensures FromLE(a + b) == FromLE(a) + Pow(0x100, |a|) * FromLE(b)
  {
    if |a| == 0 {
      assert a + b == b;
    } else {
      var rest := a[1..] + b;
      assert (a + b)[1..] == rest && (a + b)[0] == a[0];
      FromLEAppend(a[1..], b);
      var p, x, y := Pow(0x100, |a| - 1), FromLE(a[1..]), FromLE(b);
      AppendStep(a[0], x, y, p, Pow(0x100, |a|), FromLE(rest), FromLE(a + b), FromLE(a));
    }
  }

  /** The arithmetic of FromLEAppend's step. */
  lemma AppendStep(a0: int, x: int, y: int, p: int, q: int, rest: int, whole: int, left: int)
    requires q == 0x100 * p && rest == x + p * y
    requires whole == a0 + 0x100 * rest && left == a0 + 0x100 * x
    ensures whole == left + q * y
  {
    MulAssoc(0x100, p, y);
  }

  lemma MulAssoc(a: int, b: int, c: int)
    ensures a * (b * c) == (a * b) * c
  {
  }

  /** Two's complement: the `n`-byte pattern of an integer, and the integer an `n`-byte pattern denotes. */
  function Unsigned(v: int, n: nat): nat
  {
    v % Pow(0x100, n)
  }

  function Signed(u: nat, n: nat): int
    requires n > 0
  {
    if u < 0x80 * Pow(0x100, n - 1) then u else u - Pow(0x100, n)
  }

  predicate InSignedRange(v: int, n: nat)
    requires n > 0
  {
    -(0x80 * Pow(0x100, n - 1)) <= v < 0x80 * Pow(0x100, n - 1)
  }

  function EncodeSigned(v: int, n: nat): (r: seq<byte>)
    ensures |r| == n
  {
    ToLE(Unsigned(v, n), n)
  }

  function DecodeSigned(bs: seq<byte>): (r: int)
    requires |bs| > 0
    ensures InSignedRange(r, |bs|)
  {
    assert Pow(0x100, |bs|) == 0x100 * Pow(0x100, |bs| - 1);
    Signed(FromLE(bs), |bs|)
  }

  lemma SignedRoundTrip(v: int, n: nat)
    requires n > 0 && InSignedRange(v, n)
    ensures DecodeSigned(EncodeSigned(v, n)) == v
  {
    var m, h := Pow(0x100, n), 0x80 * Pow(0x100, n - 1);
    assert m == 2 * h;
    var u := Unsigned(v, n);
    if v >= 0 {
      DivModUnique(v, m, 0, v);
    } else {
      DivModUnique(v, m, -1, v + m);
    }
    FromLEToLE(u, n);
    DivModUnique(u, m, 0, u);
  }

  lemma SignedRoundTripBytes(bs: seq<byte>)
    requires |bs| > 0
    ensures EncodeSigned(DecodeSigned(bs), |bs|) == bs
  {
    var n := |bs|;
    var m := Pow(0x100, n);
    var u := FromLE(bs);
    assert m == 0x100 * Pow(0x100, n - 1);
    if u < 0x80 * Pow(0x100, n - 1) {
      DivModUnique(u, m, 0, u);
    } else {
      DivModUnique(u - m, m, -1, u);
    }
    ToLEFromLE(bs);
  }

  /** A run of `n` zero bytes. */
  function Zeros(n: nat): (r: seq<byte>)
    ensures |r| == n && forall i :: 0 <= i < n ==> r[i] == 0
  {
    seq(n, _ => 0)
  }

  lemma {:induction false} FromLEZeros(n: nat)
    ensures FromLE(Zeros(n)) == 0
  {
    if n > 0 {
      assert Zeros(n)[1..] == Zeros(n - 1);
      FromLEZeros(n - 1);
    }
  }

  /** Only zero bytes read as zero. */
  lemma {:induction false} FromLEIsZero(bs: seq<byte>)
    ensures FromLE(bs) == 0 <==> bs == Zeros(|bs|)
  {
    if |bs| > 0 {
      FromLEIsZero(bs[1..]);
      assert Zeros(|bs|) == [0] + Zeros(|bs| - 1);
      assert bs == [bs[0]] + bs[1..];
    }
  }

  /** A run of `n` copies of `b`. */
  function Repeat(b: byte, n: nat): (r: seq<byte>)
    ensures |r| == n && forall i :: 0 <= i < n ==> r[i] == b
  {
    seq(n, _ => b)
  }

  lemma {:induction false} FromLEOnes(n: nat)
    ensures FromLE(Repeat(0xFF, n)) == Pow(0x100, n) - 1
  {
    if n > 0 {
      assert Repeat(0xFF, n)[1..] == Repeat(0xFF, n - 1);
      FromLEOnes(n - 1);
    }
  }

  lemma FromLEFill(negative: bool, n: nat)
    ensures FromLE(Repeat(if negative then 0xFF else 0, n)) == if negative then Pow(0x100, n) - 1 else 0
  {
    if negative {
      FromLEOnes(n);
    } else {
      assert Repeat(0, n) == Zeros(n);
      FromLEZeros(n);
    }
  }

  lemma MulMonotone(p: nat, a: nat, b: nat)
    requires a <= b
    ensures p * a <= p * b
  {
    assert p * b == p * a + p * (b - a);
  }

  /** Reducing modulo a multiple of `a` keeps the remainder modulo `a`. */
  lemma ModMod(v: int, a: nat, b: nat)
    requires a > 0 && b > 0
    ensures (v % (a * b)) % a == v % a
  {
    var m := a * b;
    var q, u := v / m, v % m;
    assert v == m * q + u;
    MulAssoc(a, b, q);
    assert u == a * (u / a) + u % a;
    assert v == a * (b * q + u / a) + u % a;
    DivModUnique(v, a, b * q + u / a, u % a);
  }

  /** The first `k` bytes of an encoding are the `k`-byte encoding. */
  lemma {:induction false} ToLEPrefix(v: nat, n: nat, k: nat)
    requires k <= n
    ensures ToLE(v, n)[..k] == ToLE(v, k)
  {
    if k > 0 {
      ToLEPrefix(v / 0x100, n - 1, k - 1);
    }
  }

  /** An encoding depends on the value modulo 256^n only. */
  lemma ToLEMod(v: nat, n: nat)
    ensures ToLE(v, n) == ToLE(v % Pow(0x100, n), n)
  {
    FromLEToLE(v, n);
    ToLEFromLE(ToLE(v, n));
  }

  /** The first `k` bytes of a signed encoding are its `k`-byte encoding. */
  lemma EncodeSignedPrefix(v: int, n: nat, k: nat)
    requires k <= n
    ensures EncodeSigned(v, n)[..k] == EncodeSigned(v, k)
  {
    PowAdd(0x100, k, n - k);
    var u := Unsigned(v, n);
    ToLEPrefix(u, n, k);
    ToLEMod(u, k);
    ModMod(v, Pow(0x100, k), Pow(0x100, n - k));
  }

  lemma SignExtendArith(v: int, pn: nat, pk: nat, fe: nat, ff: nat)
    requires pn > 0 && pk > 0 && -(pn as int) <= v < pn
    requires fe == v % pn && ff == if v < 0 then pk - 1 else 0
    ensures fe + pn * ff == v % (pn * pk)
  {
    var m := pn * pk;
    MulAtLeast(pn, pk);
    if v >= 0 {
      DivModUnique(v, pn, 0, v);
      DivModUnique(v, m, 0, v);
    } else {
      DivModUnique(v, pn, -1, v + pn);
      assert pn * (pk - 1) == m - pn;
      DivModUnique(v, m, -1, v + m);
    }
  }

  /** A signed encoding widens by sign extension: zero bytes for a value that is not
   *  negative, 0xFF bytes for a negative one. */
  lemma SignExtend(v: int, n: nat, k: nat)
    requires n > 0 && InSignedRange(v, n)
    ensures EncodeSigned(v, n) + Repeat(if v < 0 then 0xFF else 0, k) == EncodeSigned(v, n + k)
  {
    var pn, pk := Pow(0x100, n), Pow(0x100, k);
    PowAdd(0x100, n, k);
    assert pn == 0x100 * Pow(0x100, n - 1);
    var e, fill := EncodeSigned(v, n), Repeat(if v < 0 then 0xFF else 0, k);
    FromLEAppend(e, fill);
    FromLEFill(v < 0, k);
    FromLEToLE(Unsigned(v, n), n);
    DivModUnique(Unsigned(v, n), pn, 0, Unsigned(v, n));
    SignExtendArith(v, pn, pk, FromLE(e), FromLE(fill));
    ToLEFromLE(e + fill);
  }

  /** A pattern denotes a negative number exactly when its top byte has its top bit set. */
  lemma TopByteSign(bs: seq<byte>)
    requires |bs| > 0
    ensures DecodeSigned(bs) < 0 <==> bs[|bs| - 1] >= 0x80
  {
    var n := |bs|;
    var low, top := bs[..n - 1], bs[n - 1];
    assert bs == low + [top];
    FromLEAppend(low, [top]);
    assert FromLE([top]) == top;
    var p := Pow(0x100, n - 1);
    assert FromLE(bs) == FromLE(low) + p * top;
    assert Pow(0x100, n) == 0x100 * p;
    if top >= 0x80 {
      MulMonotone(p, 0x80, top);
    } else {
      MulMonotone(p, top, 0x7F);
    }
  }
}
