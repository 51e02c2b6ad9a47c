// Image data for a file: two-pass compression if it fits, and stored blocks otherwise.
module ImageEncoder {
  import opened Sequences
  import opened PrefixCodes
  import opened Pixels
  import opened Filters
  import opened PixelTokens
  import opened PixelEncoder
  import opened Decompressor
  import opened RoundTrip
  import opened Options
  import opened PngRows
  import Zlib
  import ZlibStreams
  import HeaderWriter
  import StoredBlocks

  lemma {:induction false} FilteredBytes(prev: seq<nat>, img: seq<nat>, bpl: nat)
    requires bpl > 0 && (|prev| == 0 || |prev| == bpl) && Bytes(img)
    ensures Bytes(Filtered(prev, img, bpl))
    decreases |img|
  {
    if |img| >= bpl {
      FilteredBytes(img[..bpl], img[bpl..], bpl);
      RowFiltered(img[..bpl], prev);
    }
  }

  lemma RowFiltered(row: seq<nat>, prev: seq<nat>)
    requires (|prev| == 0 || |prev| == |row|) && Bytes(row)
    ensures Bytes(FilteredRow(row, prev))
  {
  }

  // --- rows without a filter ---------------------------------------------------------------------

  // What is written, and the rows from position start on, make up the rows of the image with filter type 0.
  ghost predicate RawLeft(out: seq<nat>, start: int, img: seq<nat>, bpl: nat) {
    bpl > 0 && 0 <= start <= |img| && out + RawRows(img[start..], bpl) == RawRows(img, bpl)
  }

  lemma RawFirst(img: seq<nat>, bpl: nat)
    requires bpl > 0
    ensures RawLeft([], 0, img, bpl)
  {
    assert img[0..] == img;
  }

  lemma RawNext(out: seq<nat>, start: nat, img: seq<nat>, bpl: nat, row: seq<nat>, out': seq<nat>)
    requires RawLeft(out, start, img, bpl) && start + bpl <= |img| && row == img[start..start + bpl]
      && Wrote(out', out, FilteredRow(row, []), |row| + 1)
    ensures RawLeft(out', start + bpl, img, bpl)
  {
    var rest := img[start..];
    WroteAll(out', out, FilteredRow(row, []));
    assert rest[..bpl] == row && rest[bpl..] == img[start + bpl..];
    Regroup(out, FilteredRow(row, []), RawRows(rest[bpl..], bpl));
  }

  lemma RawFits(out: seq<nat>, start: nat, img: seq<nat>, bpl: nat)
    requires RawLeft(out, start, img, bpl) && start + bpl <= |img|
    ensures |out| + 1 + bpl <= |RawRows(img, bpl)|
  {
    assert img[start..][..bpl] == img[start..start + bpl];
  }

  lemma RawDone(out: seq<nat>, start: nat, img: seq<nat>, bpl: nat)
    requires RawLeft(out, start, img, bpl) && start == |img|
    ensures bpl > 0 && out == RawRows(img, bpl)
  {
    assert out + [] == out;
  }

  lemma {:induction false} RawSize(img: seq<nat>, bpl: nat, n: nat)
    requires bpl > 0 && Rows(n, bpl, |img|)
    ensures |RawRows(img, bpl)| == |img| + n
    decreases n
  {
    hide Rows;
    RowsStep(n, bpl, |img|);
    if n > 0 { RawSize(img[bpl..], bpl, n - 1); }
  }

  lemma {:induction false} RawBytes(img: seq<nat>, bpl: nat)
    requires bpl > 0 && Bytes(img)
    ensures Bytes(RawRows(img, bpl))
    decreases |img|
  {
    if |img| >= bpl { RawBytes(img[bpl..], bpl); }
  }

  // Puts filter type 0 before every row.
  method CopyRows(img: seq<nat>, h: nat, bpl: nat, dst: array<nat>) returns (ofs: nat)
    requires bpl > 0 && Rows(h, bpl, |img|) && dst.Length >= |RawRows(img, bpl)|
    modifies dst
    ensures ofs <= dst.Length && dst[..ofs] == RawRows(img, bpl)
  {
    hide Rows, RawLeft, RawRows, Wrote, FilteredRow;
    ofs := 0;
    var y, start := 0, 0;
    assert dst[..0] == [];
    RawFirst(img, bpl);
    while y < h
      invariant 0 <= y <= h && 0 <= start <= |img| && Rows(h - y, bpl, |img| - start) && 0 <= ofs <= dst.Length
        && RawLeft(dst[..ofs], start, img, bpl)
    {
      RowsStep(h - y, bpl, |img| - start);
      ghost var out := dst[..ofs];
      RawFits(out, start, img, bpl);
      ApplyFilter(0, img[start..start + bpl], [], dst, ofs);
      RawNext(out, start, img, bpl, img[start..start + bpl], dst[..ofs + 1 + bpl]);
      ofs := ofs + 1 + bpl;
      start := start + bpl;
      y := y + 1;
    }
    RowsStep(0, bpl, |img| - start);
    RawDone(dst[..ofs], start, img, bpl);
  }

  // --- the image ---------------------------------------------------------------------------------

  // The bytes decode to the image, with three or four channels, whatever bytes follow them.
  ghost predicate Faithful(data: seq<nat>, img: seq<nat>, w: nat, h: nat, c: nat) {
    Channels(c) && forall d: nat, trailer: seq<nat> :: Channels(d) && Bytes(trailer) ==> Decompresses(data + trailer, |data|, w, h, c, d, Convert(img, c, d))
  }

  lemma TwoPassFaithful(img: seq<nat>, w: nat, h: nat, c: nat, e: Encoding, buf: seq<nat>, data: seq<nat>)
    requires w > 0 && Channels(c) && Encodes(e, LayoutOf(w, h, c, c), img) && Deflated(data, e, c, buf)
    ensures Faithful(data, img, w, h, c)
  {
    hide Encodes, Deflated, Decompresses, Convert;
    forall d: nat, trailer: seq<nat> | Channels(d) && Bytes(trailer)
      ensures Decompresses(data + trailer, |data|, w, h, c, d, Convert(img, c, d))
    {
      TwoPassRoundTrip(img, w, h, c, d, e, buf, data, trailer);
    }
  }

  lemma StoredFaithful(img: seq<nat>, w: nat, h: nat, c: nat)
    requires w > 0 && h > 0 && Channels(c) && |img| == w * c * h
    ensures w * c > 0 && Faithful(StoredBlocks.Stored(RawRows(img, w * c)), img, w, h, c)
  {
    hide Decompresses, Convert, StoredBlocks.Stored, RawRows;
    RawNotEmpty(img, w, h, c);
    var data := StoredBlocks.Stored(RawRows(img, w * c));
    forall d: nat, trailer: seq<nat> | Channels(d) && Bytes(trailer)
      ensures Decompresses(data + trailer, |data|, w, h, c, d, Convert(img, c, d))
    {
      StoredDecompresses(img, w, h, c, d, trailer);
    }
  }

  lemma ImageRows(img: seq<nat>, w: nat, h: nat, c: nat)
    requires w > 0 && h > 0 && Channels(c) && |img| == w * c * h
    ensures w * c == Px(w, c) > 0 && Rows(h, w * c, |img|) && (w * c + 1) * h == |img| + h
    ensures |Filtered([], img, w * c)| == |RawRows(img, w * c)| == |img| + h
  {
    hide Filtered, RawRows;
    SameRows(w, h, c);
    FilteredSize([], img, w * c, h);
    RawSize(img, w * c, h);
    assert (w * c + 1) * h == w * c * h + h;
  }

  // The filtered image.
  method FilterRows(img: seq<nat>, h: nat, bpl: nat, temp: array<nat>, size: nat) returns (buf: seq<nat>)
    requires bpl > 0 && Rows(h, bpl, |img|) && Bytes(img) && size == |Filtered([], img, bpl)| <= temp.Length
    modifies temp
    ensures IsFiltered(buf, img, bpl) && Bytes(buf)
  {
    hide Rows, Filtered;
    FilterImage(img, h, bpl, temp);
    buf := temp[..size];
    FilteredBytes([], img, bpl);
  }

  const HEADER_SIZE := 58

  // The room for the compressed data: as much as the rows with their filter types take, up to the next
  // multiple of eight
  // in the file.
  function Room(size: nat): nat { (HEADER_SIZE + size + 7) / 8 * 8 - HEADER_SIZE }

  // --- sizes in 32 bits --------------------------------------------------------------------------

  const TWO32 := 0x1_0000_0000
  const MAX_DIM := 0x100_0000

  // The images that the encoder does not turn down.
  predicate Accepted(w: nat, h: nat, c: nat) {
    1 <= w <= 16777216 && 1 <= h <= 16777216 && w * h < 4294967296 && (c == 3 || c == 4)
  }

  // The bytes of the rows with their filter types.
  function RowsSize(w: nat, h: nat, c: nat): nat { (w * c + 1) * h }

  // The room for the rows, for the compressed file and for the file of stored blocks, as it is computed in 32 bits.
  function TempRoom32(size: nat): nat { (size % TWO32 + 7) % TWO32 }
  function FileRoom32(size: nat): nat { (HEADER_SIZE + size % TWO32 + 7) % TWO32 / 8 * 8 }
  function StoredRoom32(size: nat): nat {
    var ofs := size % TWO32;
    (HEADER_SIZE + 6 + ofs + (ofs + 65534) % TWO32 / 65535 * 5) % TWO32
  }

  predicate SizesFit(size: nat) { HEADER_SIZE + StoredBlocks.StoredSize(size) < TWO32 }

  lemma TempRoomWhen(size: nat)
    ensures TempRoom32(size) >= size <==> size + 7 < TWO32
  {
  }

  lemma FileRoomWhen(size: nat)
    ensures FileRoom32(size) >= HEADER_SIZE + size <==> size + 65 < TWO32
  {
  }

  lemma StoredRoomWhen(size: nat)
    ensures StoredRoom32(size) == HEADER_SIZE + StoredBlocks.StoredSize(size) <==> SizesFit(size)
  {
    if SizesFit(size) { BlocksFit(size); }
  }

  lemma BlocksFit(size: nat)
    requires SizesFit(size)
    ensures size + 65534 < TWO32
  {
    var blocks := (size + 65534) / 65535;
    assert size + 65534 < blocks * 65535 + 65535;
    if blocks >= 13107 {
      assert 5 * blocks >= 65535;
    } else {
      assert blocks * 65535 + 65535 <= 13107 * 65535;
    }
  }

  // All buffers get the room that is needed exactly if the file of stored blocks stays below 2^32 bytes.
  lemma RoomWhen(size: nat)
    ensures SizesFit(size) <==>
      && TempRoom32(size) >= size && FileRoom32(size) >= HEADER_SIZE + size
      && StoredRoom32(size) == HEADER_SIZE + StoredBlocks.StoredSize(size)
  {
    TempRoomWhen(size);
    FileRoomWhen(size);
    StoredRoomWhen(size);
    if SizesFit(size) { BlocksFit(size); }
  }

  // Not every image that is accepted is as small as that.
  lemma AcceptedTooLarge()
    ensures Accepted(65535, 32768, 4) && RowsSize(65535, 32768, 4) == 8589836288 && TempRoom32(8589836288) == 4294868999
  {
  }

  // --- what is made of an image ------------------------------------------------------------------

  // To any reader the bytes are a zlib stream of the rows of the image.
  ghost predicate Readable(data: seq<nat>, img: seq<nat>, bpl: nat) {
    Zlib.Content(data).Some? && RowsOf(Zlib.Content(data).value, bpl, img)
  }

  // The image in stored blocks.
  ghost predicate IsStored(data: seq<nat>, img: seq<nat>, bpl: nat) {
    bpl > 0 && data == StoredBlocks.Stored(RawRows(img, bpl))
  }

  // What two passes find for the image, and the bytes they make of it.
  ghost predicate FoundFor(e: Encoding, img: seq<nat>, w: nat, h: nat, c: nat) {
    && w * c > 0 && Encodes(e, LayoutOf(w, h, c, c), img) && Standard(e, c, Filtered([], img, w * c)) && Frugal(e, c)
  }

  ghost predicate IsCompressed(data: seq<nat>, e: Encoding, img: seq<nat>, w: nat, c: nat) {
    w * c > 0 && Deflated(data, e, c, Filtered([], img, w * c))
  }

  // With all of its bytes compressed and 13 more, the image would not fit the room that was made: that of the rows with
  // their filter types, up to the next multiple of eight in a file with a header of 58 bytes.
  ghost predicate Crowded(e: Encoding, w: nat, h: nat, c: nat) {
    |e.lits| == SYMBOLS && 8 * ((58 + (w * c + 1) * h + 7) / 8 * 8 - 58) < |StreamBits(e, c)| + 8 * 13
  }

  // Makes the image data: stored blocks if that is asked for or compression fails for lack of room, and two-pass
  // compression otherwise. Decoding gives the image back, and so does any other reader of PNG images.
  method CompressImage(img: seq<nat>, w: nat, h: nat, c: nat, uncompressed: bool)
    returns (ok: bool, data: array<nat>, n: nat, ghost e: Encoding)
    requires Bytes(img) && (Accepted(w, h, c) ==> |img| == w * c * h && SizesFit(RowsSize(w, h, c)))
    ensures ok <==> Accepted(w, h, c)
    ensures ok ==> fresh(data) && 0 < n <= data.Length && HEADER_SIZE + n < TWO32 && Faithful(data[..n], img, w, h, c)
    ensures ok ==> Readable(data[..n], img, w * c)
    ensures ok && uncompressed ==> IsStored(data[..n], img, w * c)
    ensures ok && !uncompressed ==> FoundFor(e, img, w, h, c) && (IsCompressed(data[..n], e, img, w, c) || (IsStored(data[..n], img, w * c) && Crowded(e, w, h, c)))
  {
    hide Rows, Filtered, RawRows, IsFiltered, Faithful, Bytes, Encodes, Deflated, StreamBits, Px, StoredBlocks.Stored,
      StoredBlocks.StoredSize, StoredBlocks.EndsInChecksum, Readable, IsStored, FoundFor, IsCompressed, Crowded;
    data, n, e := new nat[0], 0, Encoding([], [], []);
    if w < 1 || h < 1 || w * h >= TWO32 || w > MAX_DIM || h > MAX_DIM || (c != 3 && c != 4) {
      return false, data, n, e;
    }
    ok := true;
    ImageRows(img, w, h, c);
    var bpl := w * c;
    var size := (bpl + 1) * h;
    RoomFits(size);
    var temp := new nat[size + 7](_ => 0);
    data := new nat[Room(size)](_ => 0);
    if !uncompressed {
      n, e := TryTwoPass(img, w, h, c, temp, data);
      if n != 0 { return; }
    }
    var ofs := CopyRows(img, h, bpl, temp);
    data := new nat[6 + ofs + (ofs + 65534) / 65535 * 5](_ => 0);
    RawBytes(img, bpl);
    StoredLength(data.Length, ofs);
    n := StoredBlocks.WriteRawBlock(temp[..ofs], data);
    StoredFaithful(img, w, h, c);
    StoredReadable(img, h, bpl, data[..n]);
  }

  lemma RoomFits(size: nat)
    requires SizesFit(size)
    ensures HEADER_SIZE + Room(size) < TWO32
  {
  }

  lemma StoredLength(length: nat, len: nat)
    requires length == 6 + len + (len + 65534) / 65535 * 5
    ensures length == StoredBlocks.StoredSize(len) > 0
  {
  }

  lemma StoredReadable(img: seq<nat>, h: nat, bpl: nat, data: seq<nat>)
    requires bpl > 0 && h > 0 && Bytes(img) && Rows(h, bpl, |img|) && data == StoredBlocks.Stored(RawRows(img, bpl))
    ensures IsStored(data, img, bpl) && Readable(data, img, bpl)
  {
    hide Rows, Filtered, RawRows, Bytes, StoredBlocks.Stored, RowsOf, Zlib.Content;
    RawBytes(img, bpl);
    RawSize(img, bpl, h);
    ImageRestored(img, bpl, h);
    ZlibStreams.StoredContent(RawRows(img, bpl));
  }

  lemma TwoPassReadable(img: seq<nat>, w: nat, h: nat, c: nat, e: Encoding, data: seq<nat>)
    requires w * c > 0 && Channels(c) && Bytes(img) && Rows(h, w * c, |img|) && FoundFor(e, img, w, h, c)
      && Deflated(data, e, c, Filtered([], img, w * c))
    ensures IsCompressed(data, e, img, w, c) && Readable(data, img, w * c)
  {
    hide Rows, Filtered, RawRows, Bytes, Encodes, Deflated, Frugal, RowsOf, Zlib.Content, HeaderWriter.Tells,
      HeaderWriter.Acceptable;
    var buf := Filtered([], img, w * c);
    var t :| HeaderWriter.Tells(e.header, t) && t.lits == e.lits && HeaderWriter.Acceptable(t, c);
    ZlibStreams.TwoPassContent(img, w, h, c, e, buf, data, t);
    ImageRestored(img, w * c, h);
  }

  lemma NoRoom(e: Encoding, w: nat, h: nat, c: nat, size: nat)
    requires size == (w * c + 1) * h && |e.lits| == SYMBOLS && 8 * Room(size) < |StreamBits(e, c)| + 8 * 13
    ensures Crowded(e, w, h, c)
  {
    hide StreamBits;
  }

  lemma EncodingLits(e: Encoding, g: Layout, img: seq<nat>)
    requires Encodes(e, g, img)
    ensures |e.lits| == SYMBOLS
  {
  }

  lemma WasFound(e: Encoding, img: seq<nat>, w: nat, h: nat, c: nat, buf: seq<nat>)
    requires w * c > 0 && Encodes(e, LayoutOf(w, h, c, c), img) && IsFiltered(buf, img, w * c) && Standard(e, c, buf)
      && Frugal(e, c)
    ensures FoundFor(e, img, w, h, c) && buf == Filtered([], img, w * c)
  {
    hide Encodes, Standard, Frugal, Filtered;
  }

  // The attempt to compress.
  method TryTwoPass(img: seq<nat>, w: nat, h: nat, c: nat, temp: array<nat>, data: array<nat>)
    returns (n: nat, ghost e: Encoding)
    requires w > 0 && h > 0 && Channels(c) && Bytes(img) && |img| == w * c * h && (w * c + 1) * h <= temp.Length
      && temp != data && data.Length == Room((w * c + 1) * h)
    modifies temp, data
    ensures FoundFor(e, img, w, h, c)
    ensures n != 0 ==> n <= data.Length && Faithful(data[..n], img, w, h, c) && Readable(data[..n], img, w * c) && IsCompressed(data[..n], e, img, w, c)
    ensures n == 0 ==> Crowded(e, w, h, c)
  {
    hide Rows, Filtered, RawRows, IsFiltered, Faithful, Bytes, Encodes, Deflated, StreamBits, Px, Room, Readable,
      IsCompressed, FoundFor, Crowded, Standard, Frugal, StoredBlocks.EndsInChecksum;
    ImageRows(img, w, h, c);
    var bpl := w * c;
    var buf := FilterRows(img, h, bpl, temp, (bpl + 1) * h);
    n, e := EncodeTwoPass(buf, LayoutOf(w, h, c, c), w, data, img);
    WasFound(e, img, w, h, c, buf);
    EncodingLits(e, LayoutOf(w, h, c, c), img);
    if n != 0 {
      TwoPassFaithful(img, w, h, c, e, buf, data[..n]);
      TwoPassReadable(img, w, h, c, e, data[..n]);
    } else {
      NoRoom(e, w, h, c, (bpl + 1) * h);
    }
  }

  // So the decompressor accepts the data, with at least a checksum after it, and what it writes is the image.
  lemma DecompressorAccepts(data: seq<nat>, img: seq<nat>, w: nat, h: nat, c: nat, d: nat, trailer: seq<nat>, ok: bool,
      out: seq<nat>)
    requires Faithful(data, img, w, h, c) && Channels(d) && Bytes(trailer)
    requires ok ==> Decompresses(data + trailer, |data|, w, h, c, d, out)
    requires !ok ==> forall other: seq<nat> :: !Decompresses(data + trailer, |data|, w, h, c, d, other)
    ensures ok && Channels(c) && out == Convert(img, c, d)
  {
    hide Decompresses, Convert;
    assert Decompresses(data + trailer, |data|, w, h, c, d, Convert(img, c, d));
    DecodesOnce(data + trailer, |data|, w, h, c, d, out, Convert(img, c, d));
  }
}
