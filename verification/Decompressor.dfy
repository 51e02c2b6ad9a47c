// The decoder of image data: stored blocks or one dynamic block in a zlib stream.
module Decompressor {
  import opened Options
  import opened Sequences
  import opened PrefixCodes
  import opened Bits
  import opened Streams
  import opened BitReader
  import opened Pixels
  import opened Filters
  import opened PixelTokens
  import opened TokenCoding
  import opened PixelDecoder
  import DynamicHeader
  import StoredDecoder

  // An image of w times h pixels, read with c channels and written with d channels.
  function LayoutOf(w: nat, h: nat, c: nat, d: nat): Layout { Layout(c, d, Px(w, c), Px(w, d), h) }

  // The zlib stream of zlibLen bytes at the start of src decodes to the image out.
  ghost predicate Decompresses(src: seq<nat>, zlibLen: nat, w: nat, h: nat, c: nat, d: nat, out: seq<nat>) {
    && zlibLen >= 7 && |src| >= 3 && src[0] == 0x78 && src[1] == 0x01
    && if src[2] / 2 % 4 == 0 then StoredDecoder.Decode(src, zlibLen, StoredDecoder.Shape(w, h, c, d)) == Some(out)
       else src[2] % 2 == 1 && src[2] / 2 % 4 == 2 && DecodesBlock(LayoutOf(w, h, c, d), Number(src), 19, zlibLen, out)
  }

  // There is at most one such image.
  lemma DecodesOnce(src: seq<nat>, zlibLen: nat, w: nat, h: nat, c: nat, d: nat, out: seq<nat>, out': seq<nat>)
    requires Decompresses(src, zlibLen, w, h, c, d, out) && Decompresses(src, zlibLen, w, h, c, d, out')
    ensures out == out'
  {
    hide After, Ends, StoredDecoder.Decode;
    if src[2] / 2 % 4 != 0 { BlockOnce(LayoutOf(w, h, c, d), Number(src), 19, zlibLen, out, out'); }
  }

  lemma BlockOnce(g: Layout, x: nat, p: nat, zlibLen: nat, out: seq<nat>, out': seq<nat>)
    requires DecodesBlock(g, x, p, zlibLen, out) && DecodesBlock(g, x, p, zlibLen, out')
    ensures out == out'
  {
    hide After, Ends, Reached;
    var sizes := DynamicHeader.ReadHeader(g.c, Upper(x, p)).value;
    var lits, start := sizes.sizes, p + sizes.len;
    var m: nat, pl: Place :| Reached(lits, g, x, start, m, pl) && Ends(lits, g, x, pl, zlibLen) && out == pl.s.out;
    var m': nat, pl': Place :| Reached(lits, g, x, start, m', pl') && Ends(lits, g, x, pl', zlibLen)
        && out' == pl'.s.out;
    SameEnd(lits, g, x, start, zlibLen, m, pl, m', pl');
  }

  lemma SameEnd(lits: seq<nat>, g: Layout, x: nat, start: nat, zlibLen: nat, m: nat, pl: Place, m': nat, pl': Place)
    requires Reached(lits, g, x, start, m, pl) && Ends(lits, g, x, pl, zlibLen) && Reached(lits, g, x, start, m', pl')
      && Ends(lits, g, x, pl', zlibLen)
    ensures pl == pl'
  {
    hide After, Ends;
    EndsAtEnd(lits, g, x, start, m, pl, m', zlibLen);
    EndsAtEnd(lits, g, x, start, m', pl', m, zlibLen);
  }

  // The bits of the third byte.
  lemma ThirdByte(src: seq<nat>)
    requires Bytes(src) && |src| >= 3
    ensures Lower(Upper(Number(src), 16), 1) == src[2] % 2 && Lower(Upper(Number(src), 17), 2) == src[2] / 2 % 4
    ensures Lower(Number(src), 8) == src[0] && Lower(Upper(Number(src), 8), 8) == src[1]
  {
    hide Number;
    assert src[0..] == src;
    NumberFrom(src, 1);
    NumberFrom(src, 2);
    FirstByteOf(src);
    FirstByteOf(src[1..]);
    FirstByteOf(src[2..]);
    var y := Number(src[2..]);
    UpperUpper(Number(src), 16, 1);
    LowerLower(y, 1, 8);
    UpperLower(y, 1, 7);
    LowerLower(Upper(y, 1), 2, 7);
    TwoBits(src[2]);
  }

  lemma TwoBits(b: nat)
    ensures Lower(b, 1) == b % 2 && Upper(b, 1) == b / 2 && Lower(Upper(b, 1), 2) == b / 2 % 4
  {
    var v := b / 2;
    assert Lower(v, 2) == v % 2 + 2 * (v / 2 % 2 + 2 * Lower(v / 2 / 2, 0));
  }

  lemma SameRows(w: nat, h: nat, d: nat)
    requires Channels(d)
    ensures Rows(h, Px(w, d), w * d * h)
  {
    assert w * d == Px(w, d);
    assert w * d * h == h * (w * d);
  }

  // Decodes image data. It accepts exactly the streams that decode to an image, and writes that image. The bytes
  // after the stream are at least those of a checksum.
  method Decompress(src: seq<nat>, zlibLen: nat, dst: array<nat>, w: nat, h: nat, c: nat, d: nat) returns (ok: bool)
    requires Bytes(src) && |src| >= zlibLen + 4 && w > 0 && Channels(c) && Channels(d) && dst.Length == w * d * h
    modifies dst
    ensures ok ==> Decompresses(src, zlibLen, w, h, c, d, dst[..])
    ensures !ok ==> forall out: seq<nat> :: !Decompresses(src, zlibLen, w, h, c, d, out)
  {
    hide Lower, Upper, Number, DecodesBlock, StoredDecoder.Decode, Pow2, Rows;
    if zlibLen < 7 { return false; }
    if src[0] != 0x78 || src[1] != 0x01 { return false; }
    if src[2] / 2 % 4 == 0 {
      ok := StoredDecoder.RawDecompress(src, zlibLen, dst, StoredDecoder.Shape(w, h, c, d));
      return;
    }
    ThirdByte(src);
    var r := new Reader(src, 2);
    var more, bfinal := r.Get(1);
    assert more;
    var btype;
    more, btype := r.Get(2);
    assert more;
    if bfinal != 1 || btype != 2 { return false; }
    SameRows(w, h, d);
    ok := DecodeBlock(r, dst, LayoutOf(w, h, c, d), w, zlibLen);
  }
}
