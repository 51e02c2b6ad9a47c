// The bit buffer of the encoder: bits gather in a 64-bit word, lowest first, and are written out as bytes.
module BitWriter {
  import opened Sequences
  import opened PrefixCodes
  import opened Bits

  // Bytes as bits.
  function BytesBits(s: seq<nat>): (r: seq<bool>)
    ensures |r| == 8 * |s|
  {
    if |s| == 0 then [] else BytesBits(s[..|s| - 1]) + ToBits(s[|s| - 1], 8)
  }

  // The bytes written and the bits in the buffer make up these bits.
  ghost predicate Holds(out: seq<nat>, buf: nat, size: nat, bits: seq<bool>) {
    Bytes(out) && buf < Pow2(size) && bits == BytesBits(out) + ToBits(buf, size)
  }

  lemma HoldsSize(out: seq<nat>, buf: nat, size: nat, bits: seq<bool>)
    requires Holds(out, buf, size, bits)
    ensures |bits| == 8 * |out| + size
  {
  }

  lemma NoBits(out: seq<nat>)
    requires |out| == 0
    ensures Holds(out, 0, 0, [])
  {
  }

  lemma PutBits(out: seq<nat>, buf: nat, size: nat, bits: seq<bool>, b: nat, l: nat)
    requires Holds(out, buf, size, bits) && b < Pow2(l)
    ensures Holds(out, buf + b * Pow2(size), size + l, bits + ToBits(b, l))
  {
    hide ToBits, Bytes;
    ToBitsAppend(buf, size, b, l);
    Regroup(BytesBits(out), ToBits(buf, size), ToBits(b, l));
    MulMono(b + 1, Pow2(l), Pow2(size));
    AddMultiples(b, 1, Pow2(size));
    PowAdd(l, size);
  }

  lemma BytesSnoc(out: seq<nat>, b: nat)
    ensures BytesBits(out + [b]) == BytesBits(out) + ToBits(b, 8)
  {
    assert (out + [b])[..|out|] == out;
  }

  lemma LowByte(buf: nat)
    ensures Lower(buf, 8) == buf % 256 && Upper(buf, 8) == buf / 256
  {
    LowerUpper(buf, 8);
    EightBits();
    DivModIs(buf, 256, Upper(buf, 8), Lower(buf, 8));
  }

  lemma EightBits()
    ensures Pow2(8) == 256
  {
    assert Pow2(4) == 16;
    PowAdd(4, 4);
  }

  lemma UpperBound(v: nat, a: nat, b: nat)
    requires v < Pow2(a + b)
    ensures Upper(v, a) < Pow2(b)
  {
    LowerUpper(v, a);
    PowAdd(b, a);
    if Upper(v, a) >= Pow2(b) { MulMono(Pow2(b), Upper(v, a), Pow2(a)); }
  }

  // The lowest eight bits leave the buffer.
  lemma ByteOut(out: seq<nat>, buf: nat, size: nat, bits: seq<bool>)
    requires Holds(out, buf, size, bits) && size >= 8
    ensures Holds(out + [buf % 256], buf / 256, size - 8, bits)
  {
    hide ToBits, Lower, Upper, Pow2;
    ToBitsSplit(buf, 8, size - 8);
    LowByte(buf);
    ToBitsLower(buf, 8);
    BytesSnoc(out, buf % 256);
    Regroup(BytesBits(out), ToBits(buf, 8), ToBits(buf / 256, size - 8));
    UpperBound(buf, 8, size - 8);
  }

  // The lowest n bytes of a number.
  function LowBytes(buf: nat, n: nat): (r: seq<nat>)
    ensures |r| == n
  {
    if n == 0 then [] else [buf % 256] + LowBytes(buf / 256, n - 1)
  }

  lemma FirstByte(out: seq<nat>, buf: nat, n: nat)
    requires n > 0
    ensures out + LowBytes(buf, n) == out + [buf % 256] + LowBytes(buf / 256, n - 1)
      && HighBytes(buf, n) == HighBytes(buf / 256, n - 1)
  {
  }

  // The number without its lowest n bytes.
  function HighBytes(buf: nat, n: nat): nat { if n == 0 then buf else HighBytes(buf / 256, n - 1) }

  lemma {:induction false} BytesOut(out: seq<nat>, buf: nat, size: nat, bits: seq<bool>, n: nat)
    requires Holds(out, buf, size, bits) && size >= 8 * n
    ensures Holds(out + LowBytes(buf, n), HighBytes(buf, n), size - 8 * n, bits)
    decreases n
  {
    hide Holds, LowBytes, HighBytes;
    if n == 0 {
      NoBytes(out, buf);
    } else {
      ByteOut(out, buf, size, bits);
      BytesOut(out + [buf % 256], buf / 256, size - 8, bits, n - 1);
      FirstByte(out, buf, n);
    }
  }

  lemma {:induction false} LowBytesPrefix(buf: nat, n: nat, m: nat)
    requires n <= m
    ensures LowBytes(buf, m)[..n] == LowBytes(buf, n)
    decreases n
  {
    if n > 0 {
      LowBytesPrefix(buf / 256, n - 1, m - 1);
      assert LowBytes(buf, m)[..n] == [buf % 256] + LowBytes(buf / 256, m - 1)[..n - 1];
    }
  }

  lemma {:induction false} LowBytesSnoc(buf: nat, n: nat)
    ensures LowBytes(buf, n + 1) == LowBytes(buf, n) + [HighBytes(buf, n) % 256]
      && HighBytes(buf, n + 1) == HighBytes(buf, n) / 256
    decreases n
  {
    if n > 0 { LowBytesSnoc(buf / 256, n - 1); }
  }

  lemma {:induction false} ZeroBits(n: nat)
    ensures ToBits(0, n) == Zeros(n)
  {
    if n > 0 { ZeroBits(n - 1); }
  }

  // A last byte that is not full is filled up with zeros.
  lemma PadByte(out: seq<nat>, buf: nat, size: nat, bits: seq<bool>)
    requires Holds(out, buf, size, bits) && size < 8
    ensures Holds(out, buf, 8, bits + Zeros(8 - size))
  {
    hide ToBits, Bytes, Zeros;
    PutBits(out, buf, size, bits, 0, 8 - size);
    ZeroBits(8 - size);
  }

  // All bits, filled up to whole bytes.
  ghost predicate Padded(out: seq<nat>, bits: seq<bool>) {
    Bytes(out) && 8 * |out| < |bits| + 8 && |bits| <= 8 * |out| && BytesBits(out) == bits + Zeros(8 * |out| - |bits|)
  }

  lemma AllOut(out: seq<nat>, buf: nat, bits: seq<bool>)
    requires Holds(out, buf, 0, bits)
    ensures Padded(out, bits)
  {
    assert bits + Zeros(0) == bits && ToBits(buf, 0) == [];
    assert BytesBits(out) + [] == BytesBits(out);
  }

  lemma LastOut(out: seq<nat>, buf: nat, size: nat, bits: seq<bool>)
    requires Holds(out, buf, size, bits) && 0 < size < 8
    ensures Padded(out + [buf % 256], bits)
  {
    hide BytesBits, ToBits, Zeros, Pow2;
    PadByte(out, buf, size, bits);
    var padded := bits + Zeros(8 - size);
    ByteOut(out, buf, 8, padded);
    HoldsSize(out, buf, size, bits);
    NothingLeft(out + [buf % 256], buf / 256, padded);
  }

  lemma NothingLeft(out: seq<nat>, buf: nat, bits: seq<bool>)
    requires Holds(out, buf, 0, bits)
    ensures BytesBits(out) == bits && Bytes(out)
  {
    assert BytesBits(out) + [] == BytesBits(out);
  }

  class Writer {
    const dst: array<nat>
    var ofs: nat
    var bitBuf: nat
    var bitBufSize: nat
    ghost var bits: seq<bool>

    ghost predicate Valid()
      reads this, dst
    {
      ofs <= dst.Length && bitBufSize <= 64 && Holds(dst[..ofs], bitBuf, bitBufSize, bits)
    }

    constructor (dst: array<nat>)
      ensures Valid() && this.dst == dst && bits == [] && ofs == bitBufSize == 0
    {
      this.dst := dst;
      ofs, bitBuf, bitBufSize, bits := 0, 0, 0, [];
      new;
      NoBits(dst[..0]);
    }

    // How many bits there are, and where.
    lemma Size()
      requires Valid()
      ensures |bits| == 8 * ofs + bitBufSize && bitBuf < Pow2(bitBufSize)
    {
      HoldsSize(dst[..ofs], bitBuf, bitBufSize, bits);
    }

    // Puts the l bits of b into the buffer, which must have room for them.
    method Put(b: nat, l: nat)
      requires Valid() && b < Pow2(l) && bitBufSize + l <= 64
      modifies this
      ensures Valid() && bits == old(bits) + ToBits(b, l) && ofs == old(ofs) && bitBufSize == old(bitBufSize) + l
    {
      hide Holds, ToBits, Pow2;
      PutBits(dst[..ofs], bitBuf, bitBufSize, bits, b, l);
      bitBuf := bitBuf + b * Pow2(bitBufSize);
      bitBufSize := bitBufSize + l;
      bits := bits + ToBits(b, l);
    }

    // Writes the buffer out as eight bytes, of which only the full ones count.
    method Flush() returns (ok: bool)
      requires Valid() && bitBufSize < 64
      modifies this, dst
      ensures ok <==> old(ofs) + 8 <= dst.Length
      ensures ok ==> Valid() && bits == old(bits) && bitBufSize == old(bitBufSize) % 8
    {
      hide Holds, LowBytes, HighBytes;
      if ofs + 8 > dst.Length { return false; }
      ghost var out := dst[..ofs];
      WriteLe64();
      var bytes := bitBufSize / 8;
      BytesOut(out, bitBuf, bitBufSize, bits, bytes);
      BytesWritten(dst[..ofs + 8], out, bitBuf, bytes);
      var high := ShiftBytes(bitBuf, bytes);
      ofs := ofs + bytes;
      bitBuf := high;
      bitBufSize := bitBufSize - 8 * bytes;
      assert dst[..ofs] == dst[..old(ofs) + 8][..ofs];
      return true;
    }

    method WriteLe64()
      requires ofs + 8 <= dst.Length
      modifies dst
      ensures dst[..ofs + 8] == old(dst[..ofs]) + LowBytes(bitBuf, 8)
    {
      hide LowBytes, HighBytes;
      ghost var out := dst[..ofs];
      var i, v := 0, bitBuf;
      assert dst[..ofs + 0] == out + LowBytes(bitBuf, 0) && v == HighBytes(bitBuf, 0) by { NoBytes(out, bitBuf); }
      while i < 8
        invariant 0 <= i <= 8 && dst[..ofs + i] == out + LowBytes(bitBuf, i) && v == HighBytes(bitBuf, i)
      {
        LowBytesSnoc(bitBuf, i);
        dst[ofs + i] := v % 256;
        v := v / 256;
        i := i + 1;
      }
    }

    // Puts bits into the buffer and writes out full bytes at once.
    method PutAndWrite(b: nat, l: nat) returns (ok: bool)
      requires Valid() && b < Pow2(l) && 1 <= l <= 16 && bitBufSize <= 48
      modifies this, dst
      ensures bits == old(bits) + ToBits(b, l)
      ensures ok ==> Valid() && bitBufSize <= 7
      ensures !ok ==> 8 * dst.Length < |bits|
    {
      hide Holds, ToBits, Pow2;
      Put(b, l);
      while bitBufSize >= 8
        invariant Valid() && bits == old(bits) + ToBits(b, l)
        decreases bitBufSize
      {
        if ofs + 1 > dst.Length {
          Size();
          return false;
        }
        WriteByte();
      }
      return true;
    }

    method WriteByte()
      requires Valid() && bitBufSize >= 8 && ofs < dst.Length
      modifies this, dst
      ensures Valid() && bits == old(bits) && bitBufSize == old(bitBufSize) - 8 && ofs == old(ofs) + 1
    {
      hide Holds;
      ghost var out := dst[..ofs];
      ByteOut(out, bitBuf, bitBufSize, bits);
      dst[ofs] := bitBuf % 256;
      assert dst[..ofs + 1] == out + [bitBuf % 256];
      ofs := ofs + 1;
      bitBuf := bitBuf / 256;
      bitBufSize := bitBufSize - 8;
    }

    // Writes everything out.
    method ForceFlush() returns (ok: bool)
      requires Valid()
      modifies this, dst
      ensures bits == old(bits)
      ensures ok ==> ofs <= dst.Length && Padded(dst[..ofs], bits)
      ensures !ok ==> 8 * dst.Length < |bits|
    {
      hide Holds, Padded;
      while bitBufSize >= 8
        invariant Valid() && bits == old(bits)
        decreases bitBufSize
      {
        if ofs + 1 > dst.Length {
          Size();
          return false;
        }
        WriteByte();
      }
      if bitBufSize == 0 {
        AllOut(dst[..ofs], bitBuf, bits);
        return true;
      }
      if ofs + 1 > dst.Length {
        Size();
        return false;
      }
      ghost var out := dst[..ofs];
      LastOut(out, bitBuf, bitBufSize, bits);
      dst[ofs] := bitBuf % 256;
      assert dst[..ofs + 1] == out + [bitBuf % 256];
      ofs := ofs + 1;
      return true;
    }
  }

  lemma NoBytes(out: seq<nat>, buf: nat)
    ensures out + LowBytes(buf, 0) == out && HighBytes(buf, 0) == buf
  {
  }

  lemma BytesWritten(all: seq<nat>, out: seq<nat>, buf: nat, n: nat)
    requires all == out + LowBytes(buf, 8) && n <= 8
    ensures all[..|out| + n] == out + LowBytes(buf, n)
  {
    hide LowBytes;
    LowBytesPrefix(buf, n, 8);
    assert (out + LowBytes(buf, 8))[..|out| + n] == out + LowBytes(buf, 8)[..n];
  }

  method ShiftBytes(buf: nat, n: nat) returns (r: nat)
    ensures r == HighBytes(buf, n)
  {
    r := buf;
    var i := n;
    while i > 0
      invariant 0 <= i <= n && 0 <= r && HighBytes(r, i) == HighBytes(buf, n)
    {
      r := r / 256;
      i := i - 1;
    }
  }
}
