// The bit buffer of the decoder: 32 bits are read ahead whenever fewer than that are left.
module BitReader {
  import opened Sequences
  import opened PrefixCodes
  import opened Bits
  import opened Streams
  import opened BitWriter

  lemma FirstByteOf(s: seq<nat>)
    requires |s| > 0 && s[0] < 256
    ensures Lower(Number(s), 8) == s[0] && Upper(Number(s), 8) == Number(s[1..])
  {
    LowByte(Number(s));
    DivModIs(Number(s), 256, Number(s[1..]), s[0]);
  }

  lemma {:induction false} NumberFrom(s: seq<nat>, o: nat)
    requires Bytes(s) && o <= |s|
    ensures Upper(Number(s), 8 * o) == Number(s[o..])
    decreases o
  {
    hide Lower, Upper, Number;
    if o == 0 {
      assert s[0..] == s;
      UpperNone(Number(s));
    } else {
      NumberFrom(s, o - 1);
      FirstByteOf(s[o - 1..]);
      assert s[o - 1..][1..] == s[o..];
      UpperUpper(Number(s), 8 * (o - 1), 8);
    }
  }

  lemma UpperNone(v: nat)
    ensures Upper(v, 0) == v
  {
  }

  // Two fields one after the other are one field.
  lemma {:induction false} LowerJoin(v: nat, a: nat, b: nat)
    ensures Lower(v, a + b) == Lower(v, a) + Lower(Upper(v, a), b) * Pow2(a)
    decreases a
  {
    if a > 0 {
      LowerJoin(v / 2, a - 1, b);
      Twice(Lower(Upper(v, a), b), Pow2(a - 1));
    }
  }

  function ReadLe32(s: seq<nat>, o: nat): nat
    requires o + 4 <= |s|
  {
    s[o] + 256 * s[o + 1] + 65536 * s[o + 2] + 16777216 * s[o + 3]
  }

  lemma FourBytesOf(s: seq<nat>, o: nat)
    requires Bytes(s) && o + 4 <= |s|
    ensures ReadLe32(s, o) == Lower(Upper(Number(s), 8 * o), 32)
  {
    hide Lower, Upper, Number, Pow2;
    NumberFrom(s, o);
    var a, b, c, d := s[o..], s[o + 1..], s[o + 2..], s[o + 3..];
    FirstByteOf(a);
    FirstByteOf(b);
    FirstByteOf(c);
    FirstByteOf(d);
    assert a[1..] == b && b[1..] == c && c[1..] == d;
    EightBits();
    LowerJoin(Number(a), 8, 24);
    LowerJoin(Number(b), 8, 16);
    LowerJoin(Number(c), 8, 8);
    assert Lower(Number(c), 16) == s[o + 2] + s[o + 3] * 256;
    assert Lower(Number(b), 24) == s[o + 1] + Lower(Number(c), 16) * 256;
  }

  // --- bytes and bits ------------------------------------------------------------------------------------------------

  lemma {:induction false} NumberSnoc(s: seq<nat>, b: nat)
    ensures Number(s + [b]) == Number(s) + b * Pow2(8 * |s|)
  {
    if |s| == 0 {
      assert s + [b] == [b] && [b][1..] == [];
    } else {
      assert (s + [b])[1..] == s[1..] + [b];
      NumberSnoc(s[1..], b);
      EightBits();
      PowAdd(8, 8 * |s[1..]|);
      assert b * (256 * Pow2(8 * |s[1..]|)) == 256 * (b * Pow2(8 * |s[1..]|));
    }
  }

  // The bits of the number are those of the bytes.
  lemma {:induction false} NumberBits(s: seq<nat>)
    requires Bytes(s)
    ensures ToBits(Number(s), 8 * |s|) == BytesBits(s) && Number(s) < Pow2(8 * |s|)
  {
    if |s| > 0 {
      hide *;
      var t, b := s[..|s| - 1], s[|s| - 1];
      assert s == t + [b];
      ByteLast(t, b);
      NumberBits(t);
      NumberSnoc(t, b);
      OneMoreByte(Number(t), |t|, b);
    } else {
      NumberNone(s);
    }
  }

  lemma NumberNone(s: seq<nat>)
    requires |s| == 0
    ensures ToBits(Number(s), 0) == BytesBits(s) && Number(s) < Pow2(0)
  {
  }

  lemma ByteLast(t: seq<nat>, b: nat)
    requires Bytes(t + [b])
    ensures Bytes(t) && b < 256 && BytesBits(t + [b]) == BytesBits(t) + ToBits(b, 8)
  {
    hide ToBits;
    assert (t + [b])[..|t|] == t && (t + [b])[|t|] == b;
    assert forall i :: 0 <= i < |t| ==> t[i] == (t + [b])[i];
  }

  lemma OneMoreByte(v: nat, n: nat, b: nat)
    requires v < Pow2(8 * n) && b < 256
    ensures v + b * Pow2(8 * n) < Pow2(8 * (n + 1))
    ensures ToBits(v + b * Pow2(8 * n), 8 * (n + 1)) == ToBits(v, 8 * n) + ToBits(b, 8)
  {
    hide Pow2, ToBits;
    ToBitsAppend(v, 8 * n, b, 8);
    EightBits();
    PowAdd(8, 8 * n);
    MulMono(b + 1, 256, Pow2(8 * n));
    AddMultiples(b, 1, Pow2(8 * n));
  }

  // --- the buffer ----------------------------------------------------------------------------------------------------

  // The buffer holds the size bits that follow position pos.
  ghost predicate Buffers(x: nat, pos: nat, buf: nat, size: nat) { buf == Lower(Upper(x, pos), size) }

  lemma Refill(x: nat, pos: nat, buf: nat, size: nat, more: nat)
    requires Buffers(x, pos, buf, size) && more == Lower(Upper(x, pos + size), 32)
    ensures Buffers(x, pos, buf + more * Pow2(size), size + 32)
  {
    hide Lower, Upper;
    LowerJoin(Upper(x, pos), size, 32);
    UpperUpper(x, pos, size);
  }

  lemma Consume(x: nat, pos: nat, buf: nat, size: nat, l: nat)
    requires Buffers(x, pos, buf, size) && l <= size
    ensures Buffers(x, pos + l, Upper(buf, l), size - l) && Lower(buf, l) == Lower(Upper(x, pos), l)
  {
    hide Lower, Upper;
    UpperLower(Upper(x, pos), l, size - l);
    UpperUpper(x, pos, l);
    LowerLower(Upper(x, pos), l, size);
  }

  class Reader {
    const src: seq<nat>
    var srcOfs: nat
    var bitBuf: nat
    var bitBufSize: nat

    // How many bits have been consumed.
    ghost function Pos(): int
      reads this
    {
      8 * srcOfs - bitBufSize
    }

    ghost predicate Valid()
      reads this
    {
      && Bytes(src) && srcOfs <= |src| && bitBufSize <= 64 && bitBufSize <= 8 * srcOfs
      && Buffers(Number(src), 8 * srcOfs - bitBufSize, bitBuf, bitBufSize)
    }

    // Starts with 32 bits from byte ofs on.
    constructor (src: seq<nat>, ofs: nat)
      requires Bytes(src) && ofs + 4 <= |src|
      ensures Valid() && this.src == src && Pos() == 8 * ofs && bitBufSize == 32
    {
      this.src := src;
      srcOfs := ofs + 4;
      bitBuf := ReadLe32(src, ofs);
      bitBufSize := 32;
      new;
      FourBytesOf(src, ofs);
    }

    // Reads ahead unless 32 bits are there; fails only at the very end.
    method Ensure() returns (ok: bool)
      requires Valid()
      modifies this
      ensures Valid() && Pos() == old(Pos())
      ensures ok ==> bitBufSize >= 32
      ensures !ok ==> Pos() > 8 * |src| - 56
    {
      hide Buffers, Number, Bytes;
      if bitBufSize < 32 {
        if srcOfs + 4 > |src| { return false; }
        FourBytesOf(src, srcOfs);
        Refill(Number(src), 8 * srcOfs - bitBufSize, bitBuf, bitBufSize, ReadLe32(src, srcOfs));
        bitBuf := bitBuf + ReadLe32(src, srcOfs) * Pow2(bitBufSize);
        srcOfs := srcOfs + 4;
        bitBufSize := bitBufSize + 32;
      }
      return true;
    }

    // The next n bits.
    method Peek(n: nat) returns (v: nat)
      requires Valid() && n <= bitBufSize
      ensures v == Lower(Upper(Number(src), Pos()), n) && v < Pow2(n)
    {
      hide Buffers, Number, Bytes, Lower, Upper;
      Consume(Number(src), Pos(), bitBuf, bitBufSize, n);
      v := Lower(bitBuf, n);
      LowerUpper(bitBuf, n);
    }

    // Consumes bits that are in the buffer, without reading ahead.
    method SkipNe(l: nat)
      requires Valid() && l <= bitBufSize
      modifies this
      ensures Valid() && Pos() == old(Pos()) + l && bitBufSize == old(bitBufSize) - l && srcOfs == old(srcOfs)
    {
      hide Buffers, Number, Bytes;
      Consume(Number(src), Pos(), bitBuf, bitBufSize, l);
      bitBuf := Upper(bitBuf, l);
      bitBufSize := bitBufSize - l;
    }

    method Skip(l: nat) returns (ok: bool)
      requires Valid() && l <= bitBufSize
      modifies this
      ensures Valid() && Pos() == old(Pos()) + l
      ensures ok ==> bitBufSize >= 32
      ensures !ok ==> Pos() > 8 * |src| - 56
    {
      SkipNe(l);
      ok := Ensure();
    }

    method GetNe(n: nat) returns (v: nat)
      requires Valid() && n <= bitBufSize
      modifies this
      ensures Valid() && Pos() == old(Pos()) + n && bitBufSize == old(bitBufSize) - n
      ensures v == Lower(Upper(Number(src), old(Pos())), n) && v < Pow2(n)
    {
      v := Peek(n);
      SkipNe(n);
    }

    method Get(n: nat) returns (ok: bool, v: nat)
      requires Valid() && n <= bitBufSize
      modifies this
      ensures Valid() && Pos() == old(Pos()) + n
      ensures v == Lower(Upper(Number(src), old(Pos())), n) && v < Pow2(n)
      ensures ok ==> bitBufSize >= 32
      ensures !ok ==> Pos() > 8 * |src| - 56
    {
      v := GetNe(n);
      ok := Ensure();
    }
  }
}
