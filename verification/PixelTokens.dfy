// What the compressed image says: filter types, pixels and runs of the pixel before. A pixel is read as one
// little-endian number of three or four bytes.
module PixelTokens {
  import opened Sequences
  import opened Options
  import opened PrefixCodes
  import opened Pixels
  import opened Filters

  datatype Token = Filter(f: nat) | Pixel(v: nat) | Run(k: nat)

  // Channels and bytes per row of what is read and of what is written, and the number of rows.
  datatype Layout = Layout(c: nat, d: nat, sbpl: nat, dbpl: nat, h: nat)

  // n pixels of c bytes.
  function Px(n: nat, c: nat): nat { if c == 3 then 3 * n else 4 * n }

  // The bytes of a pixel.
  function Byte(v: nat, i: nat): (b: nat)
    ensures b < 256
  {
    (if i == 0 then v else if i == 1 then v / 256 else if i == 2 then v / 65536 else v / 16777216) % 256
  }

  function ReadPixel(buf: seq<nat>, ofs: nat, c: nat): nat
    requires Channels(c) && ofs + c <= |buf|
  {
    buf[ofs] + 256 * buf[ofs + 1] + 65536 * buf[ofs + 2] + (if c == 4 then 16777216 * buf[ofs + 3] else 0)
  }

  lemma PixelBytesAre(buf: seq<nat>, ofs: nat, c: nat)
    requires Channels(c) && ofs + c <= |buf| && Bytes(buf)
    ensures forall i :: 0 <= i < c ==> Byte(ReadPixel(buf, ofs, c), i) == buf[ofs + i]
  {
    var b0, b1, b2, b3 := buf[ofs], buf[ofs + 1], buf[ofs + 2], if c == 4 then buf[ofs + 3] else 0;
    var v := ReadPixel(buf, ofs, c);
    DivModIs(v, 256, b1 + 256 * b2 + 65536 * b3, b0);
    DivModIs(b1 + 256 * b2 + 65536 * b3, 256, b2 + 256 * b3, b1);
    DivModIs(v, 65536, b2 + 256 * b3, b0 + 256 * b1);
    DivModIs(b2 + 256 * b3, 256, b3, b2);
    DivModIs(v, 16777216, b3, b0 + 256 * b1 + 65536 * b2);
    DivModIs(b3, 256, 0, b3);
  }

  // --- playing tokens back -----------------------------------------------------------------------------------------

  // Row y is being written: cur is what there is of it, prev the row above, delta the last pixel, and out all
  // complete rows.
  datatype Play = Play(y: nat, started: bool, cur: seq<nat>, prev: seq<nat>, delta: nat, out: seq<nat>)

  function Blank(): Play { Play(0, false, [], [], 0, []) }

  function Above(prev: seq<nat>, i: nat): nat { if i < |prev| then prev[i] else 0 }

  // Byte i of a pixel as it is written below prev at position ofs.
  function Written(c: nat, prev: seq<nat>, ofs: nat, v: nat, i: nat): nat {
    if i == 3 && c == 3 then 255 else Add(Above(prev, ofs + i), Byte(v, i))
  }

  function PixelOut(g: Layout, prev: seq<nat>, ofs: nat, v: nat): (r: seq<nat>)
    ensures |r| == if g.d == 4 then 4 else 3
  {
    [Written(g.c, prev, ofs, v, 0), Written(g.c, prev, ofs, v, 1), Written(g.c, prev, ofs, v, 2)]
    + if g.d == 4 then [Written(g.c, prev, ofs, v, 3)] else []
  }

  function EndRow(g: Layout, s: Play): Play {
    if |s.cur| >= g.dbpl then Play(s.y + 1, false, [], s.cur, s.delta, s.out + s.cur) else s
  }

  function PutPixel(g: Layout, s: Play, v: nat): Play {
    EndRow(g, s.(cur := s.cur + PixelOut(g, s.prev, |s.cur|, v), delta := v))
  }

  function PutRun(g: Layout, s: Play, k: nat): Play {
    if k == 0 then s else PutPixel(g, PutRun(g, s, k - 1), s.delta)
  }

  // A token in a state where it is legal. A run of no pixels does not come from the encoder; the decoder for
  // four channels lets it through, and then writes one pixel unless the pixel is zero and there is a row above.
  function PlayOne(g: Layout, s: Play, tok: Token): Option<Play> {
    match tok
    case Filter(f) => if s.started || f != (if s.y == 0 then 0 else 2) then None
        else Some(s.(started := true, delta := 0))
    case Pixel(v) => if s.started then Some(PutPixel(g, s, v)) else None
    case Run(k) =>
      if !s.started then None
      else if k == 0 then
        if g.c == 3 then None else if s.delta == 0 && |s.prev| > 0 then Some(s) else Some(PutPixel(g, s, s.delta))
      else if |s.cur| + Px(k, g.d) > g.dbpl then None
      else Some(PutRun(g, s, k))
  }

  function PlayAll(g: Layout, ts: seq<Token>): Option<Play> {
    if |ts| == 0 then Some(Blank())
    else
      match PlayAll(g, ts[..|ts| - 1])
      case None => None
      case Some(s) => PlayOne(g, s, ts[|ts| - 1])
  }

  // The tokens so far lead to state s.
  ghost predicate Playing(g: Layout, ts: seq<Token>, s: Play) { PlayAll(g, ts) == Some(s) }

  lemma PlayOn(g: Layout, ts: seq<Token>, s: Play, tok: Token)
    requires Playing(g, ts, s) && PlayOne(g, s, tok).Some?
    ensures Playing(g, ts + [tok], PlayOne(g, s, tok).value)
  {
    assert (ts + [tok])[..|ts|] == ts;
  }

  // --- unfiltering -------------------------------------------------------------------------------------------------

  // In the row y of an image, x bytes of which are there; after the last byte, in the next row.
  ghost predicate InRow(g: Layout, s: Play, y: nat, row: seq<nat>, prev: seq<nat>, out: seq<nat>, x: nat) {
    if x < |row| then s == Play(y, true, row[..x], prev, s.delta, out)
        else s == Play(y + 1, false, [], row, s.delta, out + row)
  }

  lemma InBytes(s: seq<nat>, i: nat)
    requires Bytes(s) && i < |s|
    ensures s[i] < 256
  {
  }

  lemma AddNothing(x: nat)
    requires x < 256
    ensures Add(0, x) == x
  {
  }

  // One byte.
  lemma UnfilterByte(row: seq<nat>, prev: seq<nat>, c: nat, x: nat, v: nat, i: nat)
    requires Channels(c) && i < c && x + c <= |row| && (|prev| == 0 || |prev| == |row|) && Bytes(row) && Bytes(prev)
    requires Byte(v, i) == FilteredRow(row, prev)[1 + x + i]
    ensures Written(c, prev, x, v, i) == row[x + i]
  {
    hide Byte, Bytes;
    InBytes(row, x + i);
    if |prev| > 0 {
      InBytes(prev, x + i);
      SubAdd(row[x + i], prev[x + i]);
    } else {
      AddNothing(row[x + i]);
    }
  }

  lemma UnfilterPixel(g: Layout, row: seq<nat>, prev: seq<nat>, x: nat, v: nat)
    requires Channels(g.c) && g.d == g.c && x + g.c <= |row| && (|prev| == 0 || |prev| == |row|) && Bytes(row)
      && Bytes(prev)
    requires forall i :: 0 <= i < g.c ==> Byte(v, i) == FilteredRow(row, prev)[1 + x + i]
    ensures PixelOut(g, prev, x, v) == row[x..x + g.c]
  {
    forall i | 0 <= i < g.c
      ensures Written(g.c, prev, x, v, i) == row[x + i]
    {
      UnfilterByte(row, prev, g.c, x, v, i);
    }
    hide Written;
    var p := PixelOut(g, prev, x, v);
    assert p[0] == row[x] && p[1] == row[x + 1] && p[2] == row[x + 2] && (g.c == 4 ==> p[3] == row[x + 3]);
  }

  // A pixel of the filtered row gives back the pixel of the row.
  lemma Unfilter(g: Layout, s: Play, y: nat, row: seq<nat>, prev: seq<nat>, out: seq<nat>, x: nat, v: nat)
    requires Channels(g.c) && g.d == g.c && g.dbpl == |row| && x + g.c <= |row| && InRow(g, s, y, row, prev, out, x)
    requires (|prev| == 0 || |prev| == |row|) && Bytes(row) && Bytes(prev)
    requires forall i :: 0 <= i < g.c ==> Byte(v, i) == FilteredRow(row, prev)[1 + x + i]
    ensures InRow(g, PutPixel(g, s, v), y, row, prev, out, x + g.c) && PutPixel(g, s, v).delta == v
  {
    UnfilterPixel(g, row, prev, x, v);
    hide PixelOut, FilteredRow, Bytes;
    PixelAdded(g, s, y, row, prev, out, x, v);
  }

  lemma PixelAdded(g: Layout, s: Play, y: nat, row: seq<nat>, prev: seq<nat>, out: seq<nat>, x: nat, v: nat)
    requires Channels(g.c) && g.dbpl == |row| && x + g.c <= |row| && InRow(g, s, y, row, prev, out, x)
    requires PixelOut(g, prev, x, v) == row[x..x + g.c]
    ensures InRow(g, PutPixel(g, s, v), y, row, prev, out, x + g.c) && PutPixel(g, s, v).delta == v
  {
    hide PixelOut;
    assert row[..x] + row[x..x + g.c] == row[..x + g.c];
    assert row[..|row|] == row;
  }
}
