// Reading images in stored blocks.
module StoredDecoder {
  import opened Sequences
  import opened Options
  import opened PrefixCodes
  import opened Adler32
  import opened StoredBlocks
  import opened Pixels

  datatype Shape = Shape(w: nat, h: nat, s: nat, d: nat)

  ghost predicate Image(g: Shape) { g.w >= 1 && g.h >= 1 && Channels(g.s) && Channels(g.d) }

  function Capacity(g: Shape): nat { g.w * g.d * g.h }

  // --- blocks ----------------------------------------------------------------------------------------------------

  datatype Parsed = Parsed(payload: seq<nat>, end: nat)

  // The contents of the blocks from ofs on, and where the last one ends.
  function Parse(src: seq<nat>, ofs: nat): Option<Parsed>
    decreases |src| - ofs
  {
    if ofs + 1 > |src| || src[ofs] / 2 % 4 != 0 || ofs + 5 > |src| then None
    else
      var len := src[ofs + 1] + 256 * src[ofs + 2];
      var nlen := src[ofs + 3] + 256 * src[ofs + 4];
      if len + nlen != 65535 || ofs + 5 + len > |src| then None
      else
        var data := src[ofs + 5..ofs + 5 + len];
        if src[ofs] % 2 == 1 then Some(Parsed(data, ofs + 5 + len))
        else
          match Parse(src, ofs + 5 + len)
          case None => None
          case Some(q) => Some(Parsed(data + q.payload, q.end))
  }

  lemma HeaderFields(k: nat, last: bool)
    requires k <= MAX_BLOCK
    ensures var b := BlockHeader(k, last);
      b[0] / 2 % 4 == 0 && (b[0] % 2 == 1 <==> last) && b[1] + 256 * b[2] == k && b[3] + 256 * b[4] == 65535 - k
  {
  }

  // Taking a stream apart whose pieces are known.
  lemma Pieces(pre: seq<nat>, b: seq<nat>, p: seq<nat>, rest: seq<nat>, tail: seq<nat>, src: seq<nat>)
    requires |b| == 5 && src == pre + (b + p + rest) + tail
    ensures src == pre + b + p + rest + tail && |pre| + 5 + |p| <= |src|
    ensures forall i :: 0 <= i < 5 ==> src[|pre| + i] == b[i]
    ensures src[|pre| + 5..|pre| + 5 + |p|] == p
  {
    assert src == pre + b + p + rest + tail;
  }

  lemma ParseStep(src: seq<nat>, ofs: nat, b: seq<nat>, p: seq<nat>, last: bool)
    requires |p| <= MAX_BLOCK && b == BlockHeader(|p|, last) && ofs + 5 + |p| <= |src|
    requires (forall i :: 0 <= i < 5 ==> src[ofs + i] == b[i]) && src[ofs + 5..ofs + 5 + |p|] == p
    ensures Parse(src, ofs) ==
      if last then Some(Parsed(p, ofs + 5 + |p|))
      else match Parse(src, ofs + 5 + |p|) case None => None case Some(q) => Some(Parsed(p + q.payload, q.end))
  {
    HeaderFields(|p|, last);
    hide BlockHeader;
    assert src[ofs] == b[0] && src[ofs + 1] == b[1] && src[ofs + 2] == b[2] && src[ofs + 3] == b[3]
      && src[ofs + 4] == b[4];
  }

  lemma BlocksAre(p: seq<nat>)
    requires p != []
    ensures Blocks(p) == BlockHeader(FirstLen(p), FirstLen(p) == |p|) + p[..FirstLen(p)] + Blocks(p[FirstLen(p)..])
  {
    hide BlockHeader;
  }

  lemma FirstPart(p: seq<nat>, k: nat)
    requires p != [] && k == FirstLen(p)
    ensures 0 < k <= |p| && k <= MAX_BLOCK
    ensures k == |p| ==> p[..k] == p && p[k..] == []
    ensures p[..k] + p[k..] == p
  {
  }

  // Parsing undoes writing, whatever comes before and after.
  lemma {:induction false} ParseBlocks(pre: seq<nat>, p: seq<nat>, tail: seq<nat>)
    requires p != []
    ensures Parse(pre + Blocks(p) + tail, |pre|) == Some(Parsed(p, |pre| + |Blocks(p)|))
    decreases |p|
  {
    hide Blocks, BlockHeader, FirstLen, Parse;
    var src := pre + Blocks(p) + tail;
    var k := FirstLen(p);
    FirstPart(p, k);
    BlocksAre(p);
    var b := BlockHeader(k, k == |p|);
    Pieces(pre, b, p[..k], Blocks(p[k..]), tail, src);
    ParseStep(src, |pre|, b, p[..k], k == |p|);
    if k < |p| {
      ParseBlocks(pre + b + p[..k], p[k..], tail);
    } else {
      BlocksSize(p[k..]);
    }
  }

  // --- pixels ----------------------------------------------------------------------------------------------------

  // What is decoded, and where in the row and in the pixel the next byte belongs.
  datatype Cursor = Cursor(out: seq<nat>, raster: nat, comp: nat)

  function NextRaster(raster: nat, g: Shape): nat { if raster + 1 == g.w * g.s + 1 then 0 else raster + 1 }

  function Feed1(st: Cursor, c: nat, g: Shape): Option<Cursor> {
    if st.raster == 0 then
      if c != 0 then None else Some(st.(raster := NextRaster(0, g)))
    else if st.comp < g.d && |st.out| == Capacity(g) then None
    else
      var out1 := if st.comp < g.d then st.out + [c] else st.out;
      if st.comp + 1 == g.s then
        if g.d > g.s && |out1| == Capacity(g) then None
        else Some(Cursor(if g.d > g.s then out1 + [255] else out1, NextRaster(st.raster, g), 0))
      else Some(Cursor(out1, NextRaster(st.raster, g), st.comp + 1))
  }

  function Feed(st: Cursor, data: seq<nat>, g: Shape): Option<Cursor> {
    if data == [] then Some(st)
    else
      match Feed(st, data[..|data| - 1], g)
      case None => None
      case Some(t) => Feed1(t, data[|data| - 1], g)
  }

  lemma {:induction false} FeedConcat(st: Cursor, a: seq<nat>, b: seq<nat>, g: Shape)
    ensures Feed(st, a + b, g) == match Feed(st, a, g) case None => None case Some(t) => Feed(t, b, g)
  {
    if b == [] {
      assert a + b == a;
    } else {
      FeedConcat(st, a, b[..|b| - 1], g);
      assert (a + b)[..|a + b| - 1] == a + b[..|b| - 1];
    }
  }

  lemma FeedOne(st: Cursor, c: nat, g: Shape)
    ensures Feed(st, [c], g) == Feed1(st, c, g)
  {
    assert [c][..0] == [];
  }

  lemma FeedNext(st: Cursor, a: seq<nat>, c: nat, t: Cursor, g: Shape)
    requires Feed(st, a, g) == Some(t)
    ensures Feed(st, a + [c], g) == Feed1(t, c, g)
  {
    FeedConcat(st, a, [c], g);
    FeedOne(t, c, g);
  }

  // A byte of a pixel, but not its last one.
  lemma FeedInner(out: seq<nat>, raster: nat, k: nat, c: nat, g: Shape)
    requires Image(g) && k < 3 && k + 1 < g.s && 0 < raster && raster + 1 <= g.w * g.s && |out| < Capacity(g)
    ensures Feed1(Cursor(out, raster, k), c, g) == Some(Cursor(out + [c], raster + 1, k + 1))
  {
    hide Capacity;
  }

  lemma FeedLast(out: seq<nat>, raster: nat, c: nat, g: Shape)
    requires Image(g) && 0 < raster && |out| + g.d - g.s + 1 <= Capacity(g) && (g.d >= g.s ==> |out| < Capacity(g))
    ensures Feed1(Cursor(out, raster, g.s - 1), c, g) ==
      Some(Cursor(out + (if g.s > g.d then [] else if g.d > g.s then [c, 255] else [c]), NextRaster(raster, g), 0))
  {
    hide Capacity, NextRaster;
    assert out + [] == out && out + [c] + [255] == out + [c, 255];
  }

  // The first k bytes of a pixel.
  lemma {:induction false} FeedStart(out: seq<nat>, raster: nat, p: seq<nat>, k: nat, g: Shape)
    requires Image(g) && |p| == g.s && k < g.s && 0 < raster && raster + g.s <= g.w * g.s + 1
      && |out| + g.d <= Capacity(g)
    ensures Feed(Cursor(out, raster, 0), p[..k], g) == Some(Cursor(out + p[..k], raster + k, k))
    decreases k
  {
    hide Capacity, Feed1, Feed;
    if k == 0 {
      FeedNothing(Cursor(out, raster, 0), g);
      assert out + p[..0] == out;
    } else {
      FeedStart(out, raster, p, k - 1, g);
      FeedNext(Cursor(out, raster, 0), p[..k - 1], p[k - 1], Cursor(out + p[..k - 1], raster + (k - 1), k - 1), g);
      FeedInner(out + p[..k - 1], raster + (k - 1), k - 1, p[k - 1], g);
      assert p[..k - 1] + [p[k - 1]] == p[..k];
      assert out + p[..k - 1] + [p[k - 1]] == out + p[..k];
    }
  }

  lemma FeedNothing(st: Cursor, g: Shape)
    ensures Feed(st, [], g) == Some(st)
  {
  }

  lemma FeedPixel(out: seq<nat>, raster: nat, p: seq<nat>, g: Shape)
    requires Image(g) && |p| == g.s && 0 < raster && raster + g.s <= g.w * g.s + 1 && |out| + g.d <= Capacity(g)
    ensures Feed(Cursor(out, raster, 0), p, g) ==
      Some(Cursor(out + ConvertPixel(p, g.d), if raster + g.s == g.w * g.s + 1 then 0 else raster + g.s, 0))
  {
    hide Capacity, Feed1, Feed;
    var k := g.s - 1;
    FeedStart(out, raster, p, k, g);
    FeedNext(Cursor(out, raster, 0), p[..k], p[k], Cursor(out + p[..k], raster + k, k), g);
    FeedLast(out + p[..k], raster + k, p[k], g);
    assert p[..k] + [p[k]] == p;
    var last := if g.s > g.d then [] else if g.d > g.s then [p[k], 255] else [p[k]];
    assert ConvertPixel(p, g.d) == p[..k] + last;
    Regroup(out, p[..k], last);
  }

  // n pixels at the end of a row.
  lemma {:induction false} FeedPixels(out: seq<nat>, raster: nat, data: seq<nat>, n: nat, g: Shape)
    requires Image(g) && |data| == n * g.s && 0 < raster && raster + |data| == g.w * g.s + 1
      && |out| + n * g.d <= Capacity(g)
      && n > 0
    ensures Feed(Cursor(out, raster, 0), data, g) == Some(Cursor(out + Convert(data, g.s, g.d), 0, 0))
    decreases n
  {
    AddMultiples(n - 1, 1, g.s);
    AddMultiples(n - 1, 1, g.d);
    var p, rest := data[..g.s], data[g.s..];
    assert data == p + rest;
    FeedConcat(Cursor(out, raster, 0), p, rest, g);
    FeedPixel(out, raster, p, g);
    var out1 := out + ConvertPixel(p, g.d);
    Regroup(out, ConvertPixel(p, g.d), Convert(rest, g.s, g.d));
    if n == 1 {
      assert rest == [] && Convert(rest, g.s, g.d) == [];
      assert out1 + [] == out1;
    } else {
      FeedPixels(out1, raster + g.s, rest, n - 1, g);
    }
  }

  // A row: its filter byte, and its pixels.
  lemma FeedRow(out: seq<nat>, row: seq<nat>, g: Shape)
    requires Image(g) && |row| == g.w * g.s && |out| + g.w * g.d <= Capacity(g)
    ensures Feed(Cursor(out, 0, 0), [0] + row, g) == Some(Cursor(out + Convert(row, g.s, g.d), 0, 0))
  {
    MulMono(1, g.w, g.s);
    FeedConcat(Cursor(out, 0, 0), [0], row, g);
    FeedOne(Cursor(out, 0, 0), 0, g);
    FeedPixels(out, 1, row, g.w, g);
  }

  lemma RowsStep(img: seq<nat>, bpl: nat)
    requires 0 < bpl <= |img|
    ensures RawRows(img, bpl) == [0] + img[..bpl] + RawRows(img[bpl..], bpl) && img == img[..bpl] + img[bpl..]
  {
  }

  lemma RowThen(out: seq<nat>, row: seq<nat>, rows: seq<nat>, rest: seq<nat>, g: Shape)
    requires Image(g) && |row| == g.w * g.s && |out| + g.w * g.d <= Capacity(g)
    ensures |Convert(row, g.s, g.d)| == g.w * g.d
    ensures Feed(Cursor(out, 0, 0), [0] + row + rows, g) == Feed(Cursor(out + Convert(row, g.s, g.d), 0, 0), rows, g)
    ensures out + Convert(row, g.s, g.d) + Convert(rest, g.s, g.d) == out + Convert(row + rest, g.s, g.d)
  {
    assert Channels(g.s) && Channels(g.d);
    hide *;
    FeedConcat(Cursor(out, 0, 0), [0] + row, rows, g);
    ConvertSize(row, g.s, g.d, g.w);
    FeedRow(out, row, g);
    ConvertConcat(row, rest, g.s, g.d, g.w);
    Regroup(out, Convert(row, g.s, g.d), Convert(rest, g.s, g.d));
  }

  lemma NoRows(out: seq<nat>, img: seq<nat>, bpl: nat, g: Shape)
    requires Image(g) && img == [] && bpl > 0
    ensures Feed(Cursor(out, 0, 0), RawRows(img, bpl), g) == Some(Cursor(out + Convert(img, g.s, g.d), 0, 0))
  {
    assert out + [] == out;
  }

  // All rows.
  lemma {:induction false} FeedRows(out: seq<nat>, img: seq<nat>, n: nat, g: Shape, bpl: nat, dpl: nat)
    requires Image(g) && bpl == g.w * g.s > 0 && dpl == g.w * g.d && |img| == n * bpl && |out| + n * dpl <= Capacity(g)
    ensures Feed(Cursor(out, 0, 0), RawRows(img, bpl), g) == Some(Cursor(out + Convert(img, g.s, g.d), 0, 0))
    decreases n
  {
    assert Channels(g.s) && Channels(g.d);
    hide *;
    if n == 0 {
      NoRows(out, img, bpl, g);
    } else {
      AddMultiples(n - 1, 1, bpl);
      AddMultiples(n - 1, 1, dpl);
      var row, rest := img[..bpl], img[bpl..];
      RowsStep(img, bpl);
      RowThen(out, row, RawRows(rest, bpl), rest, g);
      FeedRows(out + Convert(row, g.s, g.d), rest, n - 1, g, bpl, dpl);
    }
  }

  // --- the decoder -------------------------------------------------------------------------------------------------

  // What decoding gives: the blocks, turned into pixels, must fill the image and end before the checksum.
  function Decode(src: seq<nat>, zlibLen: nat, g: Shape): Option<seq<nat>> {
    match Parse(src, 2)
    case None => None
    case Some(q) =>
      match Feed(Cursor([], 0, 0), q.payload, g)
      case None => None
      case Some(t) => if t.comp == 0 && q.end + 4 == zlibLen && |t.out| == Capacity(g) then Some(t.out) else None
  }

  lemma RowsOfImage(img: seq<nat>, g: Shape)
    requires Image(g) && |img| == g.w * g.s * g.h
    ensures 0 < g.w * g.s <= |img| && |img| == g.h * (g.w * g.s) && g.h * (g.w * g.d) == g.w * g.d * g.h
  {
    MulMono(1, g.w, g.s);
    MulMono(1, g.h, g.w * g.s);
    Commute(g.h, g.w * g.s);
    Commute(g.h, g.w * g.d);
  }

  lemma ParseStored(payload: seq<nat>, trailer: seq<nat>)
    requires payload != []
    ensures Parse(Stored(payload) + trailer, 2) == Some(Parsed(payload, |Stored(payload)| - 4))
      && |Stored(payload)| >= 6
  {
    hide Parse, Blocks, BigEndian, Checksum;
    var sum := BigEndian(Checksum(payload, 1));
    assert |sum| == 4;
    assert Stored(payload) + trailer == [0x78, 0x01] + Blocks(payload) + (sum + trailer);
    ParseBlocks([0x78, 0x01], payload, sum + trailer);
  }

  lemma WholeDecodes(src: seq<nat>, zlibLen: nat, g: Shape, payload: seq<nat>, out: seq<nat>)
    requires zlibLen >= 4 && Parse(src, 2) == Some(Parsed(payload, zlibLen - 4))
    requires Feed(Cursor([], 0, 0), payload, g) == Some(Cursor(out, 0, 0)) && |out| == Capacity(g)
    ensures Decode(src, zlibLen, g) == Some(out)
  {
    hide Parse, Feed, Capacity;
  }

  // Decoding undoes encoding, for every image, and converts between three and four channels.
  lemma StoredRoundTrip(img: seq<nat>, g: Shape, trailer: seq<nat>)
    requires Image(g) && |img| == g.w * g.s * g.h
    ensures g.w * g.s > 0
    ensures var stream := Stored(RawRows(img, g.w * g.s));
      Decode(stream + trailer, |stream|, g) == Some(Convert(img, g.s, g.d))
  {
    hide Parse, Feed, Blocks, Convert, RawRows, Decode, Stored;
    RowsOfImage(img, g);
    var payload := RawRows(img, g.w * g.s);
    RowsStep(img, g.w * g.s);
    ParseStored(payload, trailer);
    FeedRows([], img, g.h, g, g.w * g.s, g.w * g.d);
    ImageSize(g);
    ConvertSize(img, g.s, g.d, g.w * g.h);
    assert [] + Convert(img, g.s, g.d) == Convert(img, g.s, g.d);
    WholeDecodes(Stored(payload) + trailer, |Stored(payload)|, g, payload, Convert(img, g.s, g.d));
  }

  lemma Commute(a: nat, b: nat)
    ensures a * b == b * a
  {
  }

  lemma ImageSize(g: Shape)
    ensures g.w * g.s * g.h == (g.w * g.h) * g.s && Capacity(g) == (g.w * g.h) * g.d && Capacity(g) == g.h * (g.w * g.d)
  {
    Exchange3(g.w, g.s, g.h);
    Exchange3(g.w, g.d, g.h);
    Commute(g.h, g.w * g.d);
  }

  lemma Exchange3(a: nat, b: nat, c: nat)
    ensures a * b * c == (a * c) * b
  {
    assert a * b * c == a * (b * c) == a * (c * b) == (a * c) * b;
  }

  // --- in place ----------------------------------------------------------------------------------------------------

  // One byte of a block.
  method TakeByte(c: nat, dst: array<nat>, dstOfs: nat, raster: nat, comp: nat, g: Shape)
    returns (ok: bool, dstOfs': nat, raster': nat, comp': nat)
    requires dst.Length == Capacity(g) && dstOfs <= dst.Length
    modifies dst
    ensures dstOfs' <= dst.Length
    ensures Feed1(Cursor(old(dst[..dstOfs]), raster, comp), c, g) == if ok
      then Some(Cursor(dst[..dstOfs'], raster', comp'))
      else None
  {
    dstOfs', raster', comp' := dstOfs, raster, comp;
    if raster == 0 {
      if c != 0 { return false, dstOfs, raster, comp; }
    } else {
      if comp < g.d {
        if dstOfs' == dst.Length { return false, dstOfs, raster, comp; }
        dst[dstOfs'] := c;
        dstOfs' := dstOfs' + 1;
        assert dst[..dstOfs'] == old(dst[..dstOfs]) + [c];
      }
      comp' := comp' + 1;
      if comp' == g.s {
        if g.d > g.s {
          if dstOfs' == dst.Length { return false, dstOfs, raster, comp; }
          ghost var before := dst[..dstOfs'];
          dst[dstOfs'] := 255;
          dstOfs' := dstOfs' + 1;
          assert dst[..dstOfs'] == before + [255];
        }
        comp' := 0;
      }
    }
    raster' := raster' + 1;
    if raster' == g.w * g.s + 1 { raster' := 0; }
    ok := true;
  }

  lemma FeedMore(st: Cursor, data: seq<nat>, i: nat, g: Shape)
    requires i < |data|
    ensures Feed(st, data[..i + 1], g) == match Feed(st, data[..i], g) case None => None case Some(t) => Feed1(t,
      data[i], g)
  {
    assert data[..i + 1] == data[..i] + [data[i]];
    FeedConcat(st, data[..i], [data[i]], g);
    match Feed(st, data[..i], g)
    case Some(t) => FeedOne(t, data[i], g);
    case None =>
  }

  lemma {:induction false} FeedFails(st: Cursor, data: seq<nat>, i: nat, g: Shape)
    requires i <= |data| && Feed(st, data[..i], g) == None
    ensures Feed(st, data, g) == None
  {
    assert data == data[..i] + data[i..];
    FeedConcat(st, data[..i], data[i..], g);
  }

  // The cursor that the variables stand for, after the bytes in data have been fed to st.
  ghost predicate Fed(st: Cursor, data: seq<nat>, g: Shape, out: seq<nat>, raster: nat, comp: nat) {
    Feed(st, data, g) == Some(Cursor(out, raster, comp))
  }

  lemma FedNext(st: Cursor, data: seq<nat>, i: nat, g: Shape, out: seq<nat>, raster: nat, comp: nat)
    requires i < |data| && Fed(st, data[..i], g, out, raster, comp)
    ensures Feed(st, data[..i + 1], g) == Feed1(Cursor(out, raster, comp), data[i], g)
    ensures Feed1(Cursor(out, raster, comp), data[i], g) == None ==> Feed(st, data, g) == None
    ensures Feed1(Cursor(out, raster, comp), data[i], g).Some? ==>
              var t := Feed1(Cursor(out, raster, comp), data[i], g).value;
                  Fed(st, data[..i + 1], g, t.out, t.raster, t.comp)
  {
    FeedMore(st, data, i, g);
    if Feed1(Cursor(out, raster, comp), data[i], g) == None { FeedFails(st, data, i + 1, g); }
    hide Feed, Feed1;
  }

  // The bytes of a block.
  method TakeBlock(data: seq<nat>, dst: array<nat>, dstOfs: nat, raster: nat, comp: nat, g: Shape, ghost st: Cursor)
    returns (ok: bool, dstOfs': nat, raster': nat, comp': nat)
    requires dst.Length == Capacity(g) && dstOfs <= dst.Length && st == Cursor(dst[..dstOfs], raster, comp)
    modifies dst
    ensures dstOfs' <= dst.Length
    ensures ok ==> Fed(st, data, g, dst[..dstOfs'], raster', comp')
    ensures !ok ==> Feed(st, data, g) == None
  {
    var ofs, r, c, i: int := dstOfs, raster, comp, 0;
    assert data[..0] == [] && Fed(st, [], g, dst[..ofs], r, c);
    hide Feed, Feed1, Fed, Capacity;
    while i < |data|
      invariant 0 <= i <= |data| && 0 <= ofs <= dst.Length && 0 <= r && 0 <= c
      invariant Fed(st, data[..i], g, dst[..ofs], r, c)
    {
      FedNext(st, data, i, g, dst[..ofs], r, c);
      ok, ofs, r, c := TakeByte(data[i], dst, ofs, r, c, g);
      if !ok { return false, 0, 0, 0; }
      i := i + 1;
    }
    assert data[..i] == data;
    return true, ofs, r, c;
  }

  // The blocks before ofs are read: p is their contents.
  ghost predicate Reading(src: seq<nat>, ofs: nat, p: seq<nat>) {
    Parse(src, 2) == match Parse(src, ofs) case None => None case Some(q) => Some(Parsed(p + q.payload, q.end))
  }

  lemma ReadOn(src: seq<nat>, ofs: nat, p: seq<nat>, len: nat)
    requires Reading(src, ofs, p) && ofs + 5 + len <= |src| && src[ofs] / 2 % 4 == 0
    requires len == src[ofs + 1] + 256 * src[ofs + 2] && len + (src[ofs + 3] + 256 * src[ofs + 4]) == 65535
    ensures var data := src[ofs + 5..ofs + 5 + len];
      if src[ofs] % 2 == 1 then Parse(src, 2) == Some(Parsed(p + data, ofs + 5 + len))
          else Reading(src, ofs + 5 + len, p + data)
  {
    hide Parse;
    var data := src[ofs + 5..ofs + 5 + len];
    ParseOnce(src, ofs, len);
    match Parse(src, ofs + 5 + len)
    case Some(q) => Regroup(p, data, q.payload);
    case None =>
  }

  lemma ParseOnce(src: seq<nat>, ofs: nat, len: nat)
    requires ofs + 5 + len <= |src| && src[ofs] / 2 % 4 == 0
    requires len == src[ofs + 1] + 256 * src[ofs + 2] && len + (src[ofs + 3] + 256 * src[ofs + 4]) == 65535
    ensures var data := src[ofs + 5..ofs + 5 + len];
      Parse(src, ofs) ==
        if src[ofs] % 2 == 1 then Some(Parsed(data, ofs + 5 + len))
        else match Parse(src, ofs + 5 + len) case None => None case Some(q) => Some(Parsed(data + q.payload, q.end))
  {
  }

  lemma DecodeFails(src: seq<nat>, zlibLen: nat, g: Shape, p: seq<nat>, rest: seq<nat>, end: nat)
    requires Parse(src, 2) == None || (Parse(src, 2) == Some(Parsed(p + rest, end))
      && Feed(Cursor([], 0, 0), p, g) == None)
    ensures Decode(src, zlibLen, g) == None
  {
    FeedConcat(Cursor([], 0, 0), p, rest, g);
  }

  lemma FedOn(p: seq<nat>, data: seq<nat>, g: Shape, st: Cursor)
    requires Fed(Cursor([], 0, 0), p, g, st.out, st.raster, st.comp)
    ensures Feed(Cursor([], 0, 0), p + data, g) == Feed(st, data, g)
  {
    FeedConcat(Cursor([], 0, 0), p, data, g);
  }

  lemma ReadingFails(src: seq<nat>, zlibLen: nat, g: Shape, p: seq<nat>, ofs: nat)
    requires Reading(src, ofs, p) && (Parse(src, ofs) == None || Feed(Cursor([], 0, 0), p, g) == None)
    ensures Decode(src, zlibLen, g) == None
  {
    match Parse(src, ofs)
    case Some(q) => DecodeFails(src, zlibLen, g, p, q.payload, q.end);
    case None => DecodeFails(src, zlibLen, g, p, [], 0);
  }

  lemma LastFails(src: seq<nat>, zlibLen: nat, g: Shape, p: seq<nat>, end: nat)
    requires Parse(src, 2) == Some(Parsed(p, end)) && Feed(Cursor([], 0, 0), p, g) == None
    ensures Decode(src, zlibLen, g) == None
  {
  }

  lemma Decoded(src: seq<nat>, zlibLen: nat, g: Shape, p: seq<nat>, end: nat, st: Cursor)
    requires Parse(src, 2) == Some(Parsed(p, end)) && Fed(Cursor([], 0, 0), p, g, st.out, st.raster, st.comp)
    ensures Decode(src, zlibLen, g) == if st.comp == 0 && end + 4 == zlibLen && |st.out| == Capacity(g)
      then Some(st.out) else None
  {
  }

  lemma StartReading(src: seq<nat>, g: Shape)
    ensures Reading(src, 2, []) && Fed(Cursor([], 0, 0), [], g, [], 0, 0)
  {
    match Parse(src, 2)
    case Some(q) => assert [] + q.payload == q.payload;
    case None =>
  }

  // Accepts exactly the streams that decode to an image of the given shape, and writes that image.
  method RawDecompress(src: seq<nat>, zlibLen: nat, dst: array<nat>, g: Shape) returns (ok: bool)
    requires dst.Length == Capacity(g)
    modifies dst
    ensures ok <==> Decode(src, zlibLen, g).Some?
    ensures ok ==> dst[..] == Decode(src, zlibLen, g).value
  {
    hide Reading, Fed, Feed, Parse, Decode, Capacity;
    var ofs, dstOfs, raster, comp := 2, 0, 0, 0;
    ghost var p: seq<nat> := [];
    StartReading(src, g);
    assert dst[..0] == [];
    while true
      invariant 2 <= ofs && 0 <= dstOfs <= dst.Length && 0 <= raster && 0 <= comp
      invariant Reading(src, ofs, p) && Fed(Cursor([], 0, 0), p, g, dst[..dstOfs], raster, comp)
      decreases |src| - ofs
    {
      var len, last, good := BlockAt(src, ofs);
      if !good {
        ReadingFails(src, zlibLen, g, p, ofs);
        return false;
      }
      var data := src[ofs + 5..ofs + 5 + len];
      ReadOn(src, ofs, p, len);
      ghost var st := Cursor(dst[..dstOfs], raster, comp);
      FedOn(p, data, g, st);
      ok, dstOfs, raster, comp := TakeBlock(data, dst, dstOfs, raster, comp, g, st);
      ofs := ofs + 5 + len;
      p := p + data;
      if !ok {
        if last { LastFails(src, zlibLen, g, p, ofs); } else { ReadingFails(src, zlibLen, g, p, ofs); }
        return false;
      }
      StillFed(p, data, g, st, Cursor(dst[..dstOfs], raster, comp));
      if last {
        Decoded(src, zlibLen, g, p, ofs, Cursor(dst[..dstOfs], raster, comp));
        assert dstOfs == dst.Length ==> dst[..dstOfs] == dst[..];
        return comp == 0 && ofs + 4 == zlibLen && dstOfs == dst.Length;
      }
    }
  }

  lemma StillFed(p: seq<nat>, data: seq<nat>, g: Shape, st: Cursor, t: Cursor)
    requires Feed(Cursor([], 0, 0), p, g) == Feed(st, data, g) && Fed(st, data, g, t.out, t.raster, t.comp)
    ensures Fed(Cursor([], 0, 0), p, g, t.out, t.raster, t.comp)
  {
  }

  // The header of a stored block.
  method BlockAt(src: seq<nat>, ofs: nat) returns (len: nat, last: bool, good: bool)
    ensures !good ==> Parse(src, ofs) == None
    ensures good ==> ofs + 5 + len <= |src| && src[ofs] / 2 % 4 == 0 && (last <==> src[ofs] % 2 == 1)
    ensures good ==> len == src[ofs + 1] + 256 * src[ofs + 2] && len + (src[ofs + 3] + 256 * src[ofs + 4]) == 65535
  {
    len, last, good := 0, false, false;
    if ofs + 1 > |src| { return; }
    last := src[ofs] % 2 == 1;
    if src[ofs] / 2 % 4 != 0 { return; }
    if ofs + 5 > |src| { return; }
    len := src[ofs + 1] + 256 * src[ofs + 2];
    var nlen := src[ofs + 3] + 256 * src[ofs + 4];
    if len + nlen != 65535 { return; }
    if ofs + 5 + len > |src| { return; }
    good := true;
  }
}
