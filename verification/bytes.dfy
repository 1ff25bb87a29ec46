/** Bytes, the big-endian 64-bit long codec of the container file, and the
    three primitive accesses the stream makes to the physical file:
    positional write, readLong and a buffer read. */
module Bytes {
  import opened Wrappers

  type byte = x: int | 0 <= x < 256

  /** The physical container file. */
  type Disk = seq<byte>

  const TWO_63: int := 0x8000_0000_0000_0000
  const TWO_64: int := 0x1_0000_0000_0000_0000

  /** A value of Java's `long`. */
  predicate IsLong(v: int) {
    -TWO_63 <= v < TWO_63
  }

  function Max(a: int, b: int): int {
    if a < b then b else a
  }

  function Min(a: int, b: int): int {
    if a < b then a else b
  }

  function Pow256(n: nat): (r: nat)
    ensures r >= 1
  {
    if n == 0 then 1 else 256 * Pow256(n - 1)
  }

  function Zeros(n: nat): (r: seq<byte>)
    ensures |r| == n
    ensures forall i :: 0 <= i < n ==> r[i] == 0
  {
    seq(n, _ => 0)
  }

  // ---------------------------------------------------------------------------
  // Unsigned big-endian digits

  /** The n low base-256 digits of u, most significant first. */
  function Digits(u: nat, n: nat): (r: seq<byte>)
    ensures |r| == n
  {
    if n == 0 then [] else Digits(u / 256, n - 1) + [u % 256]
  }

  /** The unsigned number a big-endian byte string denotes. */
  function Value(bs: seq<byte>): nat {
    if |bs| == 0 then 0 else Value(bs[..|bs| - 1]) * 256 + bs[|bs| - 1]
  }

  lemma DivDiv(u: nat, k: nat)
    ensures (u / 256) / Pow256(k) == u / Pow256(k + 1)
  {
    var p := Pow256(k);
    var q := (u / 256) / p;
    var r1 := u % 256;
    var r2 := (u / 256) % p;
    assert u / 256 == q * p + r2;
    assert u == 256 * (u / 256) + r1;
    assert u == (256 * p) * q + (256 * r2 + r1) by {
      calc {
        u;
        256 * (q * p + r2) + r1;
        (256 * p) * q + (256 * r2 + r1);
      }
    }
    assert 0 <= 256 * r2 + r1 < 256 * p by {
      assert r2 <= p - 1;
      assert 256 * r2 <= 256 * (p - 1);
    }
    assert Pow256(k + 1) == 256 * p;
    DivUnique(u, 256 * p, q, 256 * r2 + r1);
  }

  lemma DivUnique(u: int, d: int, q: int, r: int)
    requires d > 0 && 0 <= r < d && u == d * q + r
    ensures u / d == q
  {
    var q' := u / d;
    var r' := u % d;
    assert u == d * q' + r';
    if q' > q {
      assert d * q' >= d * (q + 1) by { MulMono(d, q + 1, q'); }
      assert false;
    } else if q' < q {
      assert d * q >= d * (q' + 1) by { MulMono(d, q' + 1, q); }
      assert false;
    }
  }

  /** The remainder that a known quotient leaves. */
  lemma ModOf(u: int, d: int, q: int, r: int)
    requires d > 0 && 0 <= r < d && u == d * q + r
    ensures u / d == q && u % d == r
  {
    DivUnique(u, d, q, r);
  }

  lemma MulMono(d: int, a: int, b: int)
    requires d > 0 && a <= b
    ensures d * a <= d * b
  {
  }

  /** Digit i of Digits(u, n) is the shift-and-mask of u. */
  lemma {:induction false} DigitsAt(u: nat, n: nat, i: nat)
    requires i < n
    ensures Digits(u, n)[i] == (u / Pow256(n - 1 - i)) % 256
  {
    if i == n - 1 {
      assert Digits(u, n)[i] == u % 256;
    } else {
      assert Digits(u, n)[i] == Digits(u / 256, n - 1)[i];
      DigitsAt(u / 256, n - 1, i);
      DivDiv(u, n - 2 - i);
    }
  }

  lemma {:induction false} ValueBound(bs: seq<byte>)
    ensures Value(bs) < Pow256(|bs|)
  {
    if |bs| > 0 {
      var init := bs[..|bs| - 1];
      ValueBound(init);
      assert Value(init) <= Pow256(|init|) - 1;
      assert Value(init) * 256 <= (Pow256(|init|) - 1) * 256;
    }
  }

  /** Decoding the digits gives the number back. */
  lemma {:induction false} ValueDigits(u: nat, n: nat)
    requires u < Pow256(n)
    ensures Value(Digits(u, n)) == u
  {
    if n > 0 {
      var ds := Digits(u, n);
      assert ds[..n - 1] == Digits(u / 256, n - 1);
      assert u / 256 < Pow256(n - 1) by {
        assert 256 * (u / 256) <= u;
      }
      ValueDigits(u / 256, n - 1);
    }
  }

  /** Encoding the value gives the digits back. */
  lemma {:induction false} DigitsValue(bs: seq<byte>)
    ensures Digits(Value(bs), |bs|) == bs
  {
    if |bs| > 0 {
      var init := bs[..|bs| - 1];
      var u := Value(bs);
      assert u == Value(init) * 256 + bs[|bs| - 1];
      DivUnique(u, 256, Value(init), bs[|bs| - 1]);
      assert u / 256 == Value(init);
      assert u % 256 == bs[|bs| - 1];
      DigitsValue(init);
      assert bs == init + [bs[|bs| - 1]];
    }
  }

  // ---------------------------------------------------------------------------
  // The long codec (longToByteArray and RandomAccessFile.readLong)

  /** The 8-byte big-endian two's-complement encoding of v. */
  function LongToBytes(v: int): (r: seq<byte>)
    ensures |r| == 8
  {
    Digits(v % TWO_64, 8)
  }

  /** The signed long that 8 big-endian bytes denote. */
  function BytesToLong(bs: seq<byte>): (r: int)
    requires |bs| == 8
  {
    var u := Value(bs);
    if u >= TWO_63 then u - TWO_64 else u
  }

  /** Byte i of the encoding is bits 56-8i .. 63-8i of v, as the unsigned
      shift `v >>> (56 - 8 i)` masked with 0xFF computes them. */
  lemma LongToBytesAt(v: int, i: nat)
    requires i < 8
    ensures LongToBytes(v)[i] == ((v % TWO_64) / Pow256(7 - i)) % 256
  {
    DigitsAt(v % TWO_64, 8, i);
  }

  /** Decoding an encoded long gives the long back. */
  lemma LongRoundTrip(v: int)
    requires IsLong(v)
    ensures BytesToLong(LongToBytes(v)) == v
  {
    assert Pow256(8) == TWO_64;
    ValueDigits(v % TWO_64, 8);
  }

  /** Every 8-byte string is the encoding of the long it decodes to. */
  lemma BytesRoundTrip(bs: seq<byte>)
    requires |bs| == 8
    ensures IsLong(BytesToLong(bs))
    ensures LongToBytes(BytesToLong(bs)) == bs
  {
    assert Pow256(8) == TWO_64;
    ValueBound(bs);
    var u := Value(bs);
    var v := BytesToLong(bs);
    if u >= TWO_63 {
      DivUnique(v, TWO_64, -1, u);
      assert v % TWO_64 == u;
    } else {
      DivUnique(v, TWO_64, 0, u);
      assert v % TWO_64 == u;
    }
    DigitsValue(bs);
  }

  // ---------------------------------------------------------------------------
  // Accesses to the physical file

  /** FileChannel.write(x, off): overwrite from off, growing the file; a gap
      between the old end and off is zero-filled. A negative position is an
      error. */
  function Put(d: Disk, off: int, x: seq<byte>): (r: Result<Disk>)
    ensures r.Err? <==> off < 0
    ensures r.Ok? ==> |r.value| == Max(|d|, off + |x|)
  {
    if off < 0 then Err(IOError)
    else
      var r: seq<byte> := seq(Max(|d|, off + |x|), i requires 0 <= i =>
                          if off <= i < off + |x| then x[i - off] else if i < |d| then d[i] else 0);
      Ok(r)
  }

  /** RandomAccessFile.seek(off) + readLong(): fails when fewer than 8 bytes remain. */
  function ReadLong(d: Disk, off: int): (r: Result<int>)
    ensures r.Ok? <==> 0 <= off && off + 8 <= |d|
    ensures r.Ok? ==> r.value == BytesToLong(d[off..off + 8])
  {
    if off < 0 || off + 8 > |d| then Err(IOError) else Ok(BytesToLong(d[off..off + 8]))
  }

  /** RandomAccessFile.seek(off) + read(new byte[n]): the bytes available
      from off, the rest of the buffer left zero. */
  function ReadBuf(d: Disk, off: int, n: nat): (r: Result<seq<byte>>)
    ensures r.Ok? <==> 0 <= off
    ensures r.Ok? ==> |r.value| == n
    ensures r.Ok? && off + n <= |d| ==> r.value == d[off..off + n]
  {
    if off < 0 then Err(IOError)
    else
      var avail := if off >= |d| then [] else d[off..Min(|d|, off + n)];
      Ok(avail + Zeros(n - |avail|))
  }

  /** Put writes x at off. */
  lemma PutSlice(d: Disk, off: int, x: seq<byte>)
    requires off >= 0
    ensures Put(d, off, x).Ok? && Put(d, off, x).value[off..off + |x|] == x
  {
    assert Put(d, off, x).value[off..off + |x|] == x;
  }

  /** A slice that does not meet the written range is unchanged by Put. */
  lemma PutFrame(d: Disk, off: int, x: seq<byte>, a: int, b: int)
    requires Put(d, off, x).Ok?
    requires 0 <= a <= b <= |d|
    requires b <= off || off + |x| <= a
    ensures Put(d, off, x).value[a..b] == d[a..b]
  {
    var r := Put(d, off, x).value;
    assert forall i :: a <= i < b ==> r[i] == d[i];
  }

  /** A long written by Put reads back. */
  lemma PutReadLong(d: Disk, off: int, v: int)
    requires 0 <= off && IsLong(v)
    ensures Put(d, off, LongToBytes(v)).Ok?
    ensures ReadLong(Put(d, off, LongToBytes(v)).value, off) == Ok(v)
  {
    PutSlice(d, off, LongToBytes(v));
    LongRoundTrip(v);
  }

  /** A long outside the written range reads the same after Put. */
  lemma PutReadLongFrame(d: Disk, off: int, x: seq<byte>, a: int)
    requires Put(d, off, x).Ok?
    requires 0 <= a && a + 8 <= |d|
    requires a + 8 <= off || off + |x| <= a
    ensures ReadLong(Put(d, off, x).value, a) == ReadLong(d, a)
  {
    PutFrame(d, off, x, a, a + 8);
  }
}
