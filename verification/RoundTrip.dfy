// The law of the codec: what the encoder makes of an image decodes to that image.
module RoundTrip {
  import opened Options
  import opened Sequences
  import opened PrefixCodes
  import opened Bits
  import opened CanonicalCodes
  import opened Streams
  import opened BitWriter
  import opened BitReader
  import opened Pixels
  import opened PixelTokens
  import opened TokenCoding
  import opened PixelDecoder
  import opened PixelEncoder
  import opened Decompressor
  import Adler32
  import Conversion
  import DynamicHeader
  import Filters
  import HeaderWriter
  import StoredBlocks
  import StoredDecoder

  // --- bytes and bits ----------------------------------------------------------------------------

  lemma {:induction false} BytesConcat(a: seq<nat>, b: seq<nat>)
    ensures BytesBits(a + b) == BytesBits(a) + BytesBits(b)
    decreases |b|
  {
    hide ToBits;
    if |b| == 0 {
      assert a + b == a && BytesBits(a) + [] == BytesBits(a);
    } else {
      var t, x := b[..|b| - 1], b[|b| - 1];
      assert a + b == (a + t) + [x] && b == t + [x];
      BytesConcat(a, t);
      BytesSnoc(a + t, x);
      BytesSnoc(t, x);
      Regroup(BytesBits(a), BytesBits(t), ToBits(x, 8));
    }
  }

  // Bytes that hold these bits are, whatever follows them, a stream that starts with these bits.
  lemma PaddedAhead(out: seq<nat>, bits: seq<bool>, rest: seq<nat>)
    requires Padded(out, bits) && Bytes(rest)
    ensures Bytes(out + rest) && Ahead(Number(out + rest), bits) && |out| == (|bits| + 7) / 8
  {
    hide BytesBits, ToBits, Number, Ahead;
    var x, pad := Number(out + rest), Zeros(8 * |out| - |bits|);
    BytesConcat(out, rest);
    NumberBits(out + rest);
    WholeAhead(x, out + rest);
    Regroup(bits, pad, BytesBits(rest));
    AheadSplit(x, bits, pad + BytesBits(rest));
  }

  lemma WholeAhead(x: nat, s: seq<nat>)
    requires ToBits(x, 8 * |s|) == BytesBits(s)
    ensures Ahead(x, BytesBits(s))
  {
  }

  // --- the fields of the stream ------------------------------------------------------------------

  lemma PrefixBack(x: nat, rest: seq<bool>)
    requires Ahead(x, Prefix() + rest)
    ensures Lower(x, 8) == 0x78 && Lower(Upper(x, 8), 8) == 1 && Lower(Upper(x, 16), 1) == 1
      && Ahead(Upper(x, 17), rest)
  {
    hide Ahead, ToBits, Lower, Upper, Pow2;
    var a, b, c := ToBits(0x78, 8), ToBits(1, 8), ToBits(1, 1);
    PrefixLimits();
    AheadSplit(x, Prefix(), rest);
    AheadSplit(x, a + b, c);
    AheadSplit(x, a, b);
    AheadField(x, 0x78, 8);
    AheadField(Upper(x, 8), 1, 8);
    AheadField(Upper(x, 16), 1, 1);
  }

  lemma StreamParts(e: Encoding, c: nat, x: nat)
    requires |e.lits| == SYMBOLS && Ahead(x, StreamBits(e, c))
    ensures var p := 19 + |e.header|;
      && Lower(x, 8) == 0x78 && Lower(Upper(x, 8), 8) == 1 && Lower(Upper(x, 16), 1) == 1 && Lower(Upper(x, 17), 2) == 2
      && Ahead(Upper(x, 19), e.header) && Ahead(Upper(x, p), AllBits(e.lits, c, e.ts))
      && Ahead(Upper(x, p + |AllBits(e.lits, c, e.ts)|), CodeBits(e.lits, END_OF_BLOCK))
      && |StreamBits(e, c)| == p + |AllBits(e.lits, c, e.ts)| + e.lits[END_OF_BLOCK]
  {
    hide Ahead, ToBits, Lower, Upper, Pow2, AllBits, CodeBits, Prefix;
    var pre, typ, all, end := Prefix(), ToBits(2, 2), AllBits(e.lits, c, e.ts), CodeBits(e.lits, END_OF_BLOCK);
    TypeLimit();
    AheadSplit(x, pre + (typ + e.header) + all, end);
    AheadSplit(x, pre + (typ + e.header), all);
    PrefixBack(x, typ + e.header);
    AheadSplit(Upper(x, 17), typ, e.header);
    UpperUpper(x, 17, 2);
    AheadField(Upper(x, 17), 2, 2);
  }

  lemma TypeLimit()
    ensures Pow2(2) == 4
  {
  }

  // --- the block ---------------------------------------------------------------------------------

  lemma EncodingParts(e: Encoding, g: Layout, img: seq<nat>) returns (s: Play)
    requires Encodes(e, g, img)
    ensures Playing(g, e.ts, s) && s.y == g.h && !s.started && s.out == img
    ensures |e.lits| == SYMBOLS && Usable(e.lits) && Limited(e.lits, TABLE_BITS) && e.lits[END_OF_BLOCK] > 0
      && HeaderWriter.HeaderOf(e.header, e.lits, g.c)
    ensures forall i :: 0 <= i < |e.ts| ==> Codable(e.lits, g.c, e.ts[i])
  {
    hide Codable, Usable, HeaderWriter.HeaderOf, Playing;
    s :| Playing(g, e.ts, s) && s.y == g.h && !s.started && s.out == img;
  }

  lemma PlayedBack(e: Encoding, g: Layout, x: nat, start: nat, t: Play)
    requires |e.lits| == SYMBOLS && Channels(g.c) && PrefixFree(e.lits)
      && Ahead(Upper(x, start), AllBits(e.lits, g.c, e.ts))
    requires (forall i :: 0 <= i < |e.ts| ==> Codable(e.lits, g.c, e.ts[i])) && Playing(g, e.ts, t) && t.y == g.h
      && !t.started
    ensures Reached(e.lits, g, x, start, |e.ts|, Place(start + |AllBits(e.lits, g.c, e.ts)|, t))
  {
    hide Ahead, Upper, AllBits, Codable, PrefixFree, PlayAll, After;
    PlaysBack(e.lits, g, x, start, e.ts);
  }

  // The tokens are played back with the channels wanted.
  lemma TokensBack(e: Encoding, img: seq<nat>, w: nat, h: nat, c: nat, d: nat, x: nat, start: nat) returns (t: Play)
    requires w > 0 && Channels(c) && Channels(d) && Encodes(e, LayoutOf(w, h, c, c), img)
      && Ahead(Upper(x, start), AllBits(e.lits, c, e.ts))
    ensures Reached(e.lits, LayoutOf(w, h, c, d), x, start, |e.ts|, Place(start + |AllBits(e.lits, c, e.ts)|, t))
    ensures t.y == h && !t.started && t.out == Convert(img, c, d)
  {
    hide Ahead, Upper, AllBits, Codable, Convert, Usable, HeaderWriter.HeaderOf, Playing, Encodes, PrefixFree, Reached;
    var g, k := LayoutOf(w, h, c, c), LayoutOf(w, h, c, d);
    var s := EncodingParts(e, g, img);
    t := Conversion.PlayConverted(g, k, e.ts, w, s);
    DynamicHeader.UsablePrefixFree(e.lits);
    PlayedBack(e, k, x, start, t);
  }

  // The stream ends where it should.
  lemma EndBack(e: Encoding, g: Layout, x: nat, p: nat, t: Play, zlibLen: nat)
    requires Channels(g.c) && |e.lits| == SYMBOLS && Usable(e.lits) && Limited(e.lits, TABLE_BITS)
      && e.lits[END_OF_BLOCK] > 0
    requires t.y == g.h && !t.started && Ahead(Upper(x, p), CodeBits(e.lits, END_OF_BLOCK))
      && (p + e.lits[END_OF_BLOCK] + 7) / 8 + 4 == zlibLen
    ensures Ends(e.lits, g, x, Place(p, t), zlibLen)
  {
    hide Ahead, Upper, CodeBits, Usable, Symbol;
    DynamicHeader.UsablePrefixFree(e.lits);
    SymbolAhead(e.lits, Upper(x, p), END_OF_BLOCK);
  }

  lemma BlockBack(e: Encoding, img: seq<nat>, w: nat, h: nat, c: nat, d: nat, x: nat, zlibLen: nat)
    requires w > 0 && Channels(c) && Channels(d) && Encodes(e, LayoutOf(w, h, c, c), img)
    requires |e.lits| == SYMBOLS && Ahead(x, StreamBits(e, c)) && (|StreamBits(e, c)| + 7) / 8 + 4 == zlibLen
    ensures Lower(x, 8) == 0x78 && Lower(Upper(x, 8), 8) == 1 && Lower(Upper(x, 16), 1) == 1
      && Lower(Upper(x, 17), 2) == 2
    ensures DecodesBlock(LayoutOf(w, h, c, d), x, 19, zlibLen, Convert(img, c, d))
  {
    hide Ahead, Lower, Upper, AllBits, CodeBits, Codable, Convert, Usable, Playing, DynamicHeader.ReadHeader,
      StreamBits, Reached,
      Ends;
    StreamParts(e, c, x);
    var k, start := LayoutOf(w, h, c, d), 19 + |e.header|;
    var p := start + |AllBits(e.lits, c, e.ts)|;
    var t := TokensBack(e, img, w, h, c, d, x, start);
    EndBack(e, k, x, p, t, zlibLen);
    GotImage(k, x, 19, zlibLen, e.lits, |e.header|, |e.ts|, Place(p, t), Convert(img, c, d));
  }

  // --- the stream --------------------------------------------------------------------------------

  lemma ChecksumBytes(v: nat)
    ensures Bytes(StoredBlocks.BigEndian(v))
  {
  }

  lemma JoinBytes(a: seq<nat>, b: seq<nat>)
    requires Bytes(a) && Bytes(b)
    ensures Bytes(a + b)
  {
  }

  // Whatever follows the stream: decoding what two-pass encoding has made gives the image back, with an opaque
  // alpha if there was none and is to be one, and without alpha if it is not wanted. The bytes after the end of the
  // block are accounted for exactly.
  lemma TwoPassRoundTrip(img: seq<nat>, w: nat, h: nat, c: nat, d: nat, e: Encoding, buf: seq<nat>, out: seq<nat>,
      trailer: seq<nat>)
    requires w > 0 && Channels(c) && Channels(d) && Bytes(trailer)
    requires Encodes(e, LayoutOf(w, h, c, c), img) && Deflated(out, e, c, buf)
    ensures Decompresses(out + trailer, |out|, w, h, c, d, Convert(img, c, d))
  {
    hide Encodes, Padded, StreamBits, Ahead, Lower, Upper, Number, DecodesBlock, Convert, Adler32.Checksum,
      StoredBlocks.BigEndian,
      StoredDecoder.Decode;
    var bytes, sum := out[..|out| - 4], out[|out| - 4..];
    var src := out + trailer;
    ChecksumBytes(Adler32.Checksum(buf, 1));
    JoinBytes(sum, trailer);
    PaddedAhead(bytes, StreamBits(e, c), sum + trailer);
    assert src == bytes + (sum + trailer);
    BlockBack(e, img, w, h, c, d, Number(src), |out|);
    StreamLong(e, c);
    ThirdByte(src);
  }

  // --- the image ---------------------------------------------------------------------------------

  // Stored blocks decode to the image as well.
  lemma StoredDecompresses(img: seq<nat>, w: nat, h: nat, c: nat, d: nat, trailer: seq<nat>)
    requires w > 0 && h > 0 && Channels(c) && Channels(d) && |img| == w * c * h
    ensures w * c > 0
    ensures var stream := StoredBlocks.Stored(RawRows(img, w * c));
      Decompresses(stream + trailer, |stream|, w, h, c, d, Convert(img, c, d))
  {
    hide Convert, StoredDecoder.Decode, Adler32.Checksum;
    StoredDecoder.StoredRoundTrip(img, StoredDecoder.Shape(w, h, c, d), trailer);
    var rows := RawRows(img, w * c);
    var stream := StoredBlocks.Stored(rows);
    RawNotEmpty(img, w, h, c);
    FirstBlock(rows);
    assert (stream + trailer)[0] == stream[0] && (stream + trailer)[1] == stream[1]
      && (stream + trailer)[2] == stream[2];
  }

  lemma RawNotEmpty(img: seq<nat>, w: nat, h: nat, c: nat)
    requires w > 0 && h > 0 && Channels(c) && |img| == w * c * h
    ensures w * c > 0 && |RawRows(img, w * c)| > 0
  {
    MulMono(1, w, c);
    MulMono(1, h, w * c);
    assert h * (w * c) == w * c * h;
  }

  lemma FirstBlock(rows: seq<nat>)
    requires |rows| > 0
    ensures var stream := StoredBlocks.Stored(rows);
      |stream| >= 7 && stream[0] == 0x78 && stream[1] == 0x01 && stream[2] / 2 % 4 == 0
  {
    hide Adler32.Checksum, StoredBlocks.BigEndian;
    var k := StoredBlocks.FirstLen(rows);
    var head := StoredBlocks.BlockHeader(k, k == |rows|);
    assert head[0] <= 1;
    assert StoredBlocks.Blocks(rows)[0] == head[0];
  }
}
