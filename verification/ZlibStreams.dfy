// Both kinds of image data are zlib streams: to any reader they hold the rows of the image.
module ZlibStreams {
  import opened Sequences
  import opened Options
  import opened PrefixCodes
  import opened Bits
  import opened CanonicalCodes
  import opened Streams
  import opened BitWriter
  import opened BitReader
  import opened Pixels
  import opened TokenBytes
  import opened TokenCoding
  import opened Zlib
  import opened ZlibEncoding
  import opened PixelEncoder
  import opened RoundTrip
  import opened Decompressor
  import opened PixelTokens
  import Adler32
  import DynamicHeader
  import HeaderWriter
  import StoredBlocks

  // --- bits ----------------------------------------------------------------------------------------

  // The stream of some bytes begins with the lowest bit of the first byte.
  lemma BitOf(data: seq<nat>, o: nat, i: nat)
    requires Bytes(data) && o < |data| && i < 8
    ensures Field(Number(data), 8 * o + i, 1) == data[o] / Pow2(i) % 2
  {
    hide Number, Lower, Upper, Pow2;
    NumberFrom(data, o);
    FirstByteOf(data[o..]);
    var y := Number(data[o..]);
    UpperUpper(Number(data), 8 * o, i);
    UpperLower(y, i, 8 - i);
    LowerLower(Upper(y, i), 1, 8 - i);
    UpperQuotient(data[o], i);
    OneBit(data[o] / Pow2(i));
  }

  lemma UpperQuotient(v: nat, i: nat)
    ensures Upper(v, i) == v / Pow2(i)
  {
    hide Upper, Lower, Pow2;
    LowerUpper(v, i);
    DivModIs(v, Pow2(i), Upper(v, i), Lower(v, i));
  }

  lemma OneBit(v: nat)
    ensures Lower(v, 1) == v % 2
  {
    assert Lower(v / 2, 0) == 0;
  }

  // A field of more than one bit has its lowest bit first.
  lemma FieldBits(x: nat, p: nat, n: nat)
    ensures Field(x, p, n + 1) == Field(x, p, n) + Field(x, p + n, 1) * Pow2(n)
  {
    hide Lower, Upper, Pow2;
    LowerJoin(Upper(x, p), n, 1);
    UpperUpper(x, p, n);
  }

  // A code has its highest bit first.
  lemma CodeBit(sizes: seq<nat>, x: nat, s: nat, i: nat)
    requires Matches(sizes, x, s) && i < sizes[s]
    ensures Field(x, i, 1) == CodeOf(sizes, s) / Pow2(sizes[s] - 1 - i) % 2
  {
    hide Lower, Upper, Pow2, Rev, CodeOf;
    var k, c := sizes[s], CodeOf(sizes, s);
    UpperLower(x, i, k - i);
    LowerLower(Upper(x, i), 1, k - i);
    RevBit(c, k, i);
    UpperQuotient(c, k - 1 - i);
    OneBit(Upper(c, k - 1 - i));
  }

  lemma {:induction false} RevBit(v: nat, n: nat, i: nat)
    requires i < n
    ensures Lower(Upper(Rev(v, n), i), 1) == Lower(Upper(v, n - 1 - i), 1)
    decreases n
  {
    hide Lower, Upper, Pow2;
    var b, r := v % 2, Rev(v / 2, n - 1);
    var w := Rev(v, n);
    assert w == r + b * Pow2(n - 1);
    RevBound(v / 2, n - 1);
    Joined(r, b, n - 1);
    OneBit(b);
    OneBit(v);
    if i == n - 1 {
      UpperNothing(v);
    } else {
      UpperLower(w, i, n - 1 - i);
      LowerLower(Upper(w, i), 1, n - 1 - i);
      RevBit(v / 2, n - 1, i);
      UpperStep(v, n - 2 - i);
    }
  }

  lemma UpperStep(v: nat, n: nat)
    ensures Upper(v, n + 1) == Upper(v / 2, n)
  {
  }

  // --- two passes ----------------------------------------------------------------------------------

  lemma WholePrefixFree(sizes: seq<nat>)
    requires Complete(sizes, 15)
    ensures PrefixFree(sizes)
  {
    assert Fits(sizes, 15);
  }

  // The data of the block.
  lemma BlockData(e: Encoding, c: nat, buf: seq<nat>, t: Codes, x: nat, bits: nat)
    requires Channels(c) && |e.lits| == SYMBOLS && Usable(e.lits) && Limited(e.lits, HeaderWriter.MAX_CODE)
    requires e.lits[END_OF_BLOCK] > 0 && forall i :: 0 <= i < |e.ts| ==> Codable(e.lits, c, e.ts[i])
    requires HeaderWriter.Acceptable(t, c) && t.lits == e.lits && Spell(c, e.ts) == Some(buf)
    requires var n := |AllBits(e.lits, c, e.ts)|;
      n + e.lits[END_OF_BLOCK] <= bits && Ahead(x, AllBits(e.lits, c, e.ts))
      && Ahead(Upper(x, n), CodeBits(e.lits, END_OF_BLOCK))
    ensures Data(t.lits, t.dists, x, bits, []) == Some(Inflated(buf, |AllBits(e.lits, c, e.ts)| + e.lits[END_OF_BLOCK]))
  {
    hide Ahead, Upper, AllBits, CodeBits, Codable, Usable, Complete, Spell, Data, Whole, CodeOf, PrefixFree;
    var n := |AllBits(e.lits, c, e.ts)|;
    DynamicHeader.UsablePrefixFree(e.lits);
    WholePrefixFree(t.dists);
    EndData(e.lits, t.dists, Upper(x, n), bits - n, buf);
    TokensData(e.lits, t.dists, c, x, bits, e.ts);
  }

  lemma CompleteWhole(sizes: seq<nat>)
    requires Complete(sizes, 15)
    ensures Whole(sizes)
  {
  }

  lemma DynamicIs(x: nat, bits: nat, out: seq<nat>, t: Codes, r: Inflated)
    requires Announces(x, t) && t.len <= bits && Field(x, 0, 5) <= 29 && |t.dists| <= 30 && t.lits[256] > 0
    requires Complete(t.clen, 15) && Whole(t.lits) && Whole(t.dists)
    requires Data(t.lits, t.dists, Upper(x, t.len), bits - t.len, out) == Some(r)
    ensures Dynamic(x, bits, out) == Some(Inflated(r.out, t.len + r.len))
  {
    hide Upper, Lower, Complete, Data, Whole, LengthsFrom, ClensAre;
    forall u | Announces(x, u) ensures u == t { AnnouncedOnce(x, t, u); }
  }

  // The block, its codes included.
  lemma BlockContent(e: Encoding, c: nat, buf: seq<nat>, t: Codes, x: nat, bits: nat)
    requires Channels(c) && |e.lits| == SYMBOLS && Usable(e.lits) && Limited(e.lits, HeaderWriter.MAX_CODE)
    requires e.lits[END_OF_BLOCK] > 0 && forall i :: 0 <= i < |e.ts| ==> Codable(e.lits, c, e.ts[i])
    requires HeaderWriter.Tells(e.header, t) && HeaderWriter.Acceptable(t, c) && t.lits == e.lits
      && Spell(c, e.ts) == Some(buf)
    requires var k, n := |e.header|, |AllBits(e.lits, c, e.ts)|;
      && k + n + e.lits[END_OF_BLOCK] <= bits && Ahead(x, e.header) && Ahead(Upper(x, k), AllBits(e.lits, c, e.ts))
      && Ahead(Upper(x, k + n), CodeBits(e.lits, END_OF_BLOCK))
    ensures Dynamic(x, bits, []) == Some(Inflated(buf, |e.header| + |AllBits(e.lits, c, e.ts)| + e.lits[END_OF_BLOCK]))
  {
    hide Ahead, Upper, Lower, AllBits, CodeBits, Codable, Usable, Complete, Spell, Data, Whole, CodeOf, Announces,
      Limited;
    var k, n := |e.header|, |AllBits(e.lits, c, e.ts)|;
    UpperUpper(x, k, n);
    BlockData(e, c, buf, t, Upper(x, k), bits - k);
    CompleteWhole(t.dists);
    assert Announces(x, t);
    DynamicIs(x, bits, [], t, Inflated(buf, n + e.lits[END_OF_BLOCK]));
  }

  lemma LastBlock(data: seq<nat>, p: nat, out: seq<nat>, r: Inflated)
    requires p + 3 <= 8 * |data| && Field(Number(data), p, 1) == 1 && Field(Number(data), p + 1, 2) == 2
    requires Dynamic(Upper(Number(data), p + 3), 8 * |data| - p - 3, out) == Some(r)
    ensures Blocks(data, p, out) == Some(Inflated(r.out, p + 3 + r.len))
  {
    hide Upper, Lower, Number, Dynamic, Plain;
  }

  // Whoever reads the bytes of an encoding as a zlib stream gets the filtered image.
  lemma TwoPassContent(img: seq<nat>, w: nat, h: nat, c: nat, e: Encoding, buf: seq<nat>, out: seq<nat>, t: Codes)
    requires Channels(c) && Encodes(e, LayoutOf(w, h, c, c), img) && Deflated(out, e, c, buf)
    requires HeaderWriter.Tells(e.header, t) && HeaderWriter.Acceptable(t, c) && t.lits == e.lits
      && Spell(c, e.ts) == Some(buf)
    ensures Content(out) == Some(buf)
  {
    hide Padded, StreamBits, Ahead, Lower, Upper, Number, Adler32.Checksum, StoredBlocks.BigEndian, AllBits, CodeBits,
      Codable, Usable, Spell, HeaderWriter.Tells, HeaderWriter.Acceptable, HeaderWriter.HeaderOf, Blocks, Dynamic,
          Playing;
    var bytes, sum := out[..|out| - 4], out[|out| - 4..];
    var s := EncodingParts(e, LayoutOf(w, h, c, c), img);
    ChecksumBytes(Adler32.Checksum(buf, 1));
    PaddedAhead(bytes, StreamBits(e, c), sum);
    assert out == bytes + sum;
    var x := Number(out);
    StreamParts(e, c, x);
    UpperUpper(x, 19, |e.header|);
    UpperUpper(x, 19, |e.header| + |AllBits(e.lits, c, e.ts)|);
    BlockContent(e, c, buf, t, Upper(x, 19), 8 * |out| - 19);
    LastBlock(out, 16, [], Dynamic(Upper(x, 19), 8 * |out| - 19, []).value);
    StreamLong(e, c);
    ThirdByte(out);
    StoredBlocks.ChecksumBound(buf);
    StoredBlocks.BigEndianValue(Adler32.Checksum(buf, 1), sum);
  }

  // --- stored blocks -------------------------------------------------------------------------------

  // The three bits at the start of byte o.
  lemma KindOf(data: seq<nat>, o: nat)
    requires Bytes(data) && o < |data|
    ensures Field(Number(data), 8 * o, 1) == data[o] % 2 && Field(Number(data), 8 * o + 1, 2) == data[o] / 2 % 4
  {
    hide Number, Lower, Upper;
    NumberFrom(data, o);
    FirstByteOf(data[o..]);
    var y := Number(data[o..]);
    UpperUpper(Number(data), 8 * o, 1);
    LowerLower(y, 1, 8);
    UpperLower(y, 1, 7);
    LowerLower(Upper(y, 1), 2, 7);
    TwoBits(data[o]);
  }

  lemma StoredHeader(k: nat, last: bool)
    requires k <= 65535
    ensures var b := StoredBlocks.BlockHeader(k, last);
      && b[0] % 2 == (if last then 1 else 0) && b[0] / 2 % 4 == 0 && b[1] + 256 * b[2] == k
      && k + b[3] + 256 * b[4] == 65535
  {
  }

  lemma PlainIs(data: seq<nat>, o: nat, out: seq<nat>, a: seq<nat>, last: bool)
    requires |a| <= 65535 && o + 5 + |a| <= |data|
    requires data[o..o + 5] == StoredBlocks.BlockHeader(|a|, last) && data[o + 5..o + 5 + |a|] == a
    ensures Plain(data, o + 1, out) == Some(out + a) && data[o] % 2 == (if last then 1 else 0) && data[o] / 2 % 4 == 0
  {
    hide StoredBlocks.BlockHeader;
    StoredHeader(|a|, last);
    var b := data[o..o + 5];
    assert b[0] == data[o] && b[1] == data[o + 1] && b[2] == data[o + 2] && b[3] == data[o + 3] && b[4] == data[o + 4];
  }

  lemma StoredStep(data: seq<nat>, o: nat, out: seq<nat>, r: seq<nat>, end: nat)
    requires o < |data| && Field(Number(data), 8 * o + 1, 2) == 0
    requires Plain(data, o + 1, out) == Some(r) && |r| >= |out| && end == 8 * (o + 5 + |r| - |out|)
    ensures Blocks(data, 8 * o, out) ==
      if Field(Number(data), 8 * o, 1) == 1 then Some(Inflated(r, end)) else Blocks(data, end, r)
  {
    hide Upper, Lower, Number, Dynamic, Plain;
    assert (8 * o + 10) / 8 == o + 1;
  }

  // A stored block of the bytes in a, and where the next one begins.
  lemma PlainBlock(data: seq<nat>, o: nat, out: seq<nat>, a: seq<nat>, last: bool, r: seq<nat>, end: nat)
    requires Bytes(data) && |a| <= 65535 && o + 5 + |a| <= |data| && r == out + a && end == 8 * (o + 5 + |a|)
    requires data[o..o + 5] == StoredBlocks.BlockHeader(|a|, last) && data[o + 5..o + 5 + |a|] == a
    ensures Blocks(data, 8 * o, out) == if last then Some(Inflated(r, end)) else Blocks(data, end, r)
  {
    hide Number, Field, StoredBlocks.BlockHeader, Plain, Blocks, Bytes;
    KindOf(data, o);
    PlainIs(data, o, out, a, last);
    StoredStep(data, o, out, r, end);
  }

  lemma FirstStored(rest: seq<nat>, k: nat)
    requires rest != [] && k == StoredBlocks.FirstLen(rest)
    ensures 0 < k <= |rest| && k <= 65535
    ensures StoredBlocks.Blocks(rest) ==
      StoredBlocks.BlockHeader(k, k == |rest|) + rest[..k] + StoredBlocks.Blocks(rest[k..])
    ensures k == |rest| ==> rest[..k] == rest && StoredBlocks.Blocks(rest[k..]) == []
  {
  }

  lemma {:induction false} StoredContentFrom(data: seq<nat>, o: nat, out: seq<nat>, rest: seq<nat>, tail: seq<nat>)
    requires Bytes(data) && o <= |data| && rest != [] && data[o..] == StoredBlocks.Blocks(rest) + tail
    ensures Blocks(data, 8 * o, out) == Some(Inflated(out + rest, 8 * (o + |StoredBlocks.Blocks(rest)|)))
    decreases |rest|
  {
    hide StoredBlocks.BlockHeader, StoredBlocks.Blocks, StoredBlocks.FirstLen, Blocks, Bytes;
    var k := StoredBlocks.FirstLen(rest);
    FirstStored(rest, k);
    var b, more := StoredBlocks.BlockHeader(k, k == |rest|), StoredBlocks.Blocks(rest[k..]);
    HeaderThere(data, o, b, rest[..k], more, tail);
    PlainBlock(data, o, out, rest[..k], k == |rest|, out + rest[..k], 8 * (o + 5 + k));
    if k < |rest| {
      assert out + rest[..k] + rest[k..] == out + rest;
      StoredContentFrom(data, o + 5 + k, out + rest[..k], rest[k..], tail);
    }
  }

  lemma HeaderThere(data: seq<nat>, o: nat, b: seq<nat>, a: seq<nat>, more: seq<nat>, tail: seq<nat>)
    requires o <= |data| && data[o..] == b + a + more + tail && |b| == 5
    ensures o + 5 + |a| + |more| <= |data| && data[o..o + 5] == b
    ensures data[o + 5..o + 5 + |a|] == a && data[o + 5 + |a|..] == more + tail
  {
    var d := data[o..];
    assert d[..5] == b && d[5..5 + |a|] == a && d[5 + |a|..] == more + tail;
  }

  // Stored blocks are a zlib stream if there is anything to store.
  lemma StoredContent(src: seq<nat>)
    requires Bytes(src) && src != []
    ensures Content(StoredBlocks.Stored(src)) == Some(src)
  {
    hide StoredBlocks.Blocks, StoredBlocks.BigEndian, Adler32.Checksum, Blocks;
    var data := StoredBlocks.Stored(src);
    var sum := StoredBlocks.BigEndian(Adler32.Checksum(src, 1));
    StoredBytes(src);
    assert data[2..] == StoredBlocks.Blocks(src) + sum;
    StoredContentFrom(data, 2, [], src, sum);
    assert [] + src == src;
    StoredBlocks.ChecksumBound(src);
    StoredBlocks.BigEndianValue(Adler32.Checksum(src, 1), sum);
    assert sum == data[|data| - 4..];
  }

  lemma StoredBytes(src: seq<nat>)
    requires Bytes(src)
    ensures Bytes(StoredBlocks.Stored(src))
  {
    hide StoredBlocks.Blocks, StoredBlocks.BigEndian, Adler32.Checksum;
    BlocksBytes(src);
    ChecksumBytes(Adler32.Checksum(src, 1));
  }

  lemma {:induction false} BlocksBytes(src: seq<nat>)
    requires Bytes(src)
    ensures Bytes(StoredBlocks.Blocks(src))
    decreases |src|
  {
    if src != [] {
      var k := StoredBlocks.FirstLen(src);
      BlocksBytes(src[k..]);
      HeaderBytes(k, k == |src|);
      hide StoredBlocks.BlockHeader;
    }
  }

  lemma HeaderBytes(k: nat, last: bool)
    requires k <= 65535
    ensures Bytes(StoredBlocks.BlockHeader(k, last))
  {
  }
}
