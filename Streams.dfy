/** A model of the .NET streams the library works on: a growable, seekable
 *  in-memory byte stream (MemoryStream semantics), and read-only windows over it.
 *  A stream is always readable; whether it may be written and sought is chosen when
 *  it is made, and an unseekable stream has no length. */
module Streams {
  import opened Bytes
  import opened Wrappers

  function Min(a: int, b: int): int { if a <= b then a else b }
  function Max(a: int, b: int): int { if a <= b then b else a }

  /** The contents after writing `bytes` at `pos`: bytes before `pos` are kept, the
   *  written bytes replace what was there, the stream grows if needed, and a gap
   *  between the old end and `pos` reads as zeros.  Writing nothing changes nothing. */
  function Splice(data: seq<byte>, pos: nat, bytes: seq<byte>): (r: seq<byte>)
    ensures |r| == if |bytes| == 0 then |data| else Max(|data|, pos + |bytes|)
    ensures |bytes| > 0 ==> r[pos..pos + |bytes|] == bytes
    ensures forall i :: 0 <= i < |r| && !(pos <= i < pos + |bytes|) ==>
              r[i] == if i < |data| then data[i] else 0
  {
    if |bytes| == 0 then data
    else if pos <= |data| then
      data[..pos] + bytes + (if pos + |bytes| < |data| then data[pos + |bytes|..] else [])
    else
      data + Zeros(pos - |data|) + bytes
  }

  /** Two consecutive writes are one write of the concatenation. */
  lemma SpliceSplice(data: seq<byte>, pos: nat, a: seq<byte>, b: seq<byte>)
    ensures Splice(Splice(data, pos, a), pos + |a|, b) == Splice(data, pos, a + b)
  {
    var left, right := Splice(Splice(data, pos, a), pos + |a|, b), Splice(data, pos, a + b);
    assert |left| == |right|;
    forall i | 0 <= i < |left|
      ensures left[i] == right[i]
    {
      if pos <= i < pos + |a| {
        assert left[i] == Splice(data, pos, a)[i] == a[i - pos];
        assert right[i] == (a + b)[i - pos];
      } else if pos + |a| <= i < pos + |a| + |b| {
        assert left[i] == b[i - pos - |a|];
        assert right[i] == (a + b)[i - pos];
      }
    }
  }

  /** The same, with the second write at a position equal to where the first ended. */
  lemma SpliceAfter(data: seq<byte>, pos: nat, a: seq<byte>, q: nat, b: seq<byte>)
    requires q == pos + |a|
    ensures Splice(Splice(data, pos, a), q, b) == Splice(data, pos, a + b)
  {
    var left, right := Splice(Splice(data, pos, a), q, b), Splice(data, pos, a + b);
    assert |left| == |right|;
    forall i | 0 <= i < |left|
      ensures left[i] == right[i]
    {
      if pos <= i < q {
        assert left[i] == Splice(data, pos, a)[i] == a[i - pos];
        assert right[i] == (a + b)[i - pos];
      } else if q <= i < q + |b| {
        assert left[i] == b[i - q];
        assert right[i] == (a + b)[i - pos];
      }
    }
  }

  /** The bytes at `at` that are three strings one after the other hold each of
   *  them in turn. */
  lemma SliceOfParts(data: seq<byte>, at: nat, a: seq<byte>, b: seq<byte>, c: seq<byte>)
    requires at + |a| + |b| + |c| <= |data| && data[at..at + |a| + |b| + |c|] == a + b + c
    ensures data[at..at + |a|] == a
    ensures data[at + |a|..at + |a| + |b|] == b
    ensures data[at + |a| + |b|..at + |a| + |b| + |c|] == c
  {
    var whole := data[at..at + |a| + |b| + |c|];
    forall k | 0 <= k < |a|
      ensures data[at + k] == a[k]
    {
      assert whole[k] == data[at + k];
    }
    forall k | 0 <= k < |b|
      ensures data[at + |a| + k] == b[k]
    {
      assert whole[|a| + k] == data[at + |a| + k];
    }
    forall k | 0 <= k < |c|
      ensures data[at + |a| + |b| + k] == c[k]
    {
      assert whole[|a| + |b| + k] == data[at + |a| + |b| + k];
    }
  }

  /** The bytes at `at` that are two strings one after the other hold each of them. */
  lemma SliceOfTwo(data: seq<byte>, at: nat, a: seq<byte>, b: seq<byte>)
    requires at + |a| + |b| <= |data| && data[at..at + |a| + |b|] == a + b
    ensures data[at..at + |a|] == a
    ensures data[at + |a|..at + |a| + |b|] == b
  {
    var whole := data[at..at + |a| + |b|];
    forall k | 0 <= k < |a|
      ensures data[at + k] == a[k]
    {
      assert whole[k] == data[at + k];
    }
    forall k | 0 <= k < |b|
      ensures data[at + |a| + k] == b[k]
    {
      assert whole[|a| + k] == data[at + |a| + k];
    }
  }

  /** SliceOfTwo, with the positions where the parts meet and end given by name. */
  lemma SliceAt(data: seq<byte>, at: nat, a: seq<byte>, mid: nat, b: seq<byte>, end: nat)
    requires mid == at + |a| && end == mid + |b| && end <= |data| && data[at..end] == a + b
    ensures data[at..mid] == a && data[mid..end] == b
  {
    SliceOfTwo(data, at, a, b);
  }

  /** SliceOfParts, with the positions where the parts meet and end given by name. */
  lemma SliceAt3(data: seq<byte>, at: nat, a: seq<byte>, p: nat, b: seq<byte>, q: nat, c: seq<byte>, end: nat)
    requires p == at + |a| && q == p + |b| && end == q + |c| && end <= |data| && data[at..end] == a + b + c
    ensures data[at..p] == a && data[p..q] == b && data[q..end] == c
  {
    SliceOfParts(data, at, a, b, c);
  }

  /** Writing at the end of the stream appends. */
  lemma SpliceAtEnd(data: seq<byte>, bytes: seq<byte>)
    ensures Splice(data, |data|, bytes) == data + bytes
  {
    if |bytes| > 0 {
      assert data[..|data|] == data;
    }
  }

  /** Overwriting part of what a write put down is one write of the changed bytes. */
  lemma SpliceInside(data: seq<byte>, at: nat, x: seq<byte>, k: nat, y: seq<byte>)
    requires k + |y| <= |x|
    ensures Splice(Splice(data, at, x), at + k, y) == Splice(data, at, x[..k] + y + x[k + |y|..])
  {
    var left, z := Splice(Splice(data, at, x), at + k, y), x[..k] + y + x[k + |y|..];
    var right := Splice(data, at, z);
    assert |z| == |x|;
    assert |left| == |right|;
    forall i | 0 <= i < |left|
      ensures left[i] == right[i]
    {
      if at + k <= i < at + k + |y| {
        assert left[i] == y[i - at - k];
        assert right[i] == z[i - at];
      } else if at <= i < at + |x| {
        assert left[i] == Splice(data, at, x)[i] == x[i - at];
        assert right[i] == z[i - at];
      }
    }
  }

  /** Writing `a + b`, then `c` after it, then `y` back over `b`, is one write of
   *  `a + y + c`. */
  lemma SpliceBackPatch(data: seq<byte>, at: nat, a: seq<byte>, b: seq<byte>, c: seq<byte>, y: seq<byte>,
                        x: seq<byte>, z: seq<byte>, q: nat, p: nat)
    requires |y| == |b| && x == a + b && z == a + y + c && q == at + |x| && p == at + |a|
    ensures Splice(Splice(Splice(data, at, x), q, c), p, y) == Splice(data, at, z)
  {
    var s1 := Splice(data, at, x);
    var s2 := Splice(s1, q, c);
    var left := Splice(s2, p, y);
    var right := Splice(data, at, z);
    assert |left| == |right|;
    forall i | 0 <= i < |left|
      ensures left[i] == right[i]
    {
      SpliceIndex(s2, p, y, i);
      SpliceIndex(data, at, z, i);
      if i < |s2| {
        SpliceIndex(s1, q, c, i);
        if i < |s1| {
          SpliceIndex(data, at, x, i);
        }
      }
      if at <= i < at + |z| {
        if i < at + |a| {
          assert x[i - at] == a[i - at] == z[i - at];
        } else if i < at + |a| + |y| {
          assert y[i - p] == z[i - at];
        } else {
          assert c[i - q] == z[i - at];
        }
      }
    }
  }

  /** One byte of a Splice. */
  lemma SpliceIndex(data: seq<byte>, pos: nat, bytes: seq<byte>, i: nat)
    requires i < |Splice(data, pos, bytes)|
    ensures Splice(data, pos, bytes)[i] == if pos <= i < pos + |bytes| then bytes[i - pos] else if i < |data| then data[i] else 0
  {
    if pos <= i < pos + |bytes| {
      assert Splice(data, pos, bytes)[pos..pos + |bytes|][i - pos] == bytes[i - pos];
    }
  }

  /** Rewriting bytes that are already there changes nothing. */
  lemma SpliceSame(data: seq<byte>, pos: nat, n: nat)
    requires pos + n <= |data|
    ensures Splice(data, pos, data[pos..pos + n]) == data
  {
  }

  /** A read-only window [start, start + length) over a stream's bytes, through
   *  which reads are bounded and positions are relative to `start`.  The whole
   *  stream is the window starting at 0. */
  datatype Window = Window(start: nat, length: nat) {
    function End(): nat { start + length }
  }

  /** The window lies inside the stream's bytes and `pos` is not before its start. */
  predicate Within(data: seq<byte>, w: Window, pos: nat)
  {
    w.End() <= |data| && w.start <= pos
  }

  /** `n` bytes of `data` from `from`; a zero-length slice may start anywhere. */
  function Slice(data: seq<byte>, from: nat, n: nat): (r: seq<byte>)
    requires n == 0 || from + n <= |data|
    ensures |r| == n
  {
    if n == 0 then [] else data[from..from + n]
  }

  /** The number of bytes a read at `pos` through `w` can deliver. */
  function Available(w: Window, pos: nat): nat
  {
    if pos < w.End() then w.End() - pos else 0
  }

  class Stream {
    var data: seq<byte>
    var pos: nat
    const canWrite: bool
    const canSeek: bool

    constructor (initial: seq<byte>, writable: bool, seekable: bool)
      ensures data == initial && pos == 0
      ensures canWrite == writable && canSeek == seekable
    {
      data, pos := initial, 0;
      canWrite, canSeek := writable, seekable;
    }

    /** The whole stream as a window. */
    function Whole(): Window
      reads this
    {
      Window(0, |data|)
    }

    /** A window lies inside the stream and the position is not before its start. */
    predicate Readable(w: Window)
      reads this
    {
      Within(data, w, pos)
    }

    /** Stream.Write: fails on a read-only stream. */
    method Write(bytes: seq<byte>) returns (r: Result<()>)
      modifies this
      ensures r == if canWrite then Success(()) else Failure(NotSupported)
      ensures r.Failure? ==> data == old(data) && pos == old(pos)
      ensures r.Success? ==> data == Splice(old(data), old(pos), bytes) && pos == old(pos) + |bytes|
    {
      if !canWrite {
        return Failure(NotSupported);
      }
      data := Splice(data, pos, bytes);
      pos := pos + |bytes|;
      return Success(());
    }

    /** Stream.Seek from the beginning: fails on an unseekable stream.  The position
     *  may be moved past the end. */
    method Seek(p: nat) returns (r: Result<()>)
      modifies this`pos
      ensures r == if canSeek then Success(()) else Failure(NotSupported)
      ensures r.Failure? ==> pos == old(pos)
      ensures r.Success? ==> pos == p
    {
      if !canSeek {
        return Failure(NotSupported);
      }
      pos := p;
      return Success(());
    }

    /** Stream.Read through a window: delivers at most `count` bytes, never past the
     *  window's end. */
    method Read(w: Window, count: nat) returns (bytes: seq<byte>)
      requires Readable(w)
      modifies this`pos
      ensures |bytes| == Min(count, Available(w, old(pos)))
      ensures bytes == Slice(data, old(pos), |bytes|)
      ensures pos == old(pos) + |bytes| && Readable(w)
    {
      var n := Min(count, Available(w, pos));
      bytes := Slice(data, pos, n);
      pos := pos + n;
    }
  }
}
