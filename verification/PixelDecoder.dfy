// The decoder of compressed images: reads tokens, writes pixels, and accepts exactly the streams that a reader of
// one symbol at a time accepts, with the same pixels.
module PixelDecoder {
  import opened Options
  import opened Sequences
  import opened PrefixCodes
  import opened Bits
  import opened CanonicalCodes
  import opened Streams
  import opened TwoSymbolTable
  import opened BitReader
  import opened HeaderReader
  import opened Pixels
  import opened Filters
  import opened PixelTokens
  import opened TokenCoding
  import opened PixelReader
  import opened Canvas
  import DynamicHeader
  import Tokenizer

  // --- what is decoded ---------------------------------------------------------------------------

  // The stream has an end of block after the last row, and then only the checksum, from the next byte on.
  ghost predicate Ends(lits: seq<nat>, g: Layout, x: nat, pl: Place, zlibLen: nat) {
    && pl.s.y == g.h && !pl.s.started && Symbol(lits, Upper(x, pl.pos)) == Some(END_OF_BLOCK) && END_OF_BLOCK < |lits|
    && (pl.pos + lits[END_OF_BLOCK] + 7) / 8 + 4 == zlibLen
  }

  // After m tokens, the reader is at pl.
  ghost predicate Reached(lits: seq<nat>, g: Layout, x: nat, start: nat, m: nat, pl: Place) {
    Channels(g.c) && After(lits, g, x, start, m) == Some(pl)
  }

  ghost predicate Decodes(lits: seq<nat>, g: Layout, x: nat, start: nat, zlibLen: nat, out: seq<nat>) {
    exists m: nat, pl: Place :: Reached(lits, g, x, start, m, pl) && Ends(lits, g, x, pl, zlibLen) && out == pl.s.out
  }

  ghost predicate Undecodable(lits: seq<nat>, g: Layout, x: nat, start: nat, zlibLen: nat) {
    forall out: seq<nat> :: !Decodes(lits, g, x, start, zlibLen, out)
  }

  lemma ReachedNext(lits: seq<nat>, g: Layout, x: nat, start: nat, m: nat, pl: Place, tok: Token, len: nat)
    requires Reached(lits, g, x, start, m, pl) && pl.s.y < g.h
      && ReadToken(lits, g.c, pl.s.started, Upper(x, pl.pos)) == Some(Read(tok, len))
    requires PlayOne(g, pl.s, tok).Some?
    ensures Reached(lits, g, x, start, m + 1, Place(pl.pos + len, PlayOne(g, pl.s, tok).value))
  {
    hide ReadToken, PlayOne, Upper;
  }

  lemma {:induction false} ReachedBack(lits: seq<nat>, g: Layout, x: nat, start: nat, m: nat, k: nat)
    requires Channels(g.c) && k <= m && After(lits, g, x, start, m).Some?
    ensures After(lits, g, x, start, k).Some? && After(lits, g, x, start, k).value.pos <= After(lits, g, x, start,
      m).value.pos
    decreases m
  {
    hide ReadToken, PlayOne, Upper;
    if k < m { ReachedBack(lits, g, x, start, m - 1, k); }
  }

  lemma {:induction false} NothingLater(lits: seq<nat>, g: Layout, x: nat, start: nat, k: nat, m: nat)
    requires Channels(g.c) && After(lits, g, x, start, k).None?
    ensures k <= m ==> After(lits, g, x, start, m).None?
    decreases m
  {
    hide ReadToken, PlayOne, Upper;
    if k < m { NothingLater(lits, g, x, start, k, m - 1); }
  }

  // A reader that is in the middle of the image and can not go on within the limit never comes to the end.
  lemma Stuck(lits: seq<nat>, g: Layout, x: nat, start: nat, m: nat, pl: Place, zlibLen: nat, limit: int)
    requires Reached(lits, g, x, start, m, pl) && pl.s.y < g.h && limit >= 8 * zlibLen - 32
    requires var t := ReadToken(lits, g.c, pl.s.started, Upper(x, pl.pos));
      LostToken(t, pl.pos, limit) || PlayOne(g, pl.s, t.value.tok).None?
    ensures Undecodable(lits, g, x, start, zlibLen)
  {
    hide ReadToken, PlayOne, Upper, Symbol, After;
    forall out: seq<nat>
      ensures !Decodes(lits, g, x, start, zlibLen, out)
    {
      if Decodes(lits, g, x, start, zlibLen, out) {
        var m': nat, pl': Place :| Reached(lits, g, x, start, m', pl') && Ends(lits, g, x, pl', zlibLen)
            && out == pl'.s.out;
        EndsAtEnd(lits, g, x, start, m', pl', m, zlibLen);
        FurtherLost(lits, g, x, start, m, pl, m', limit);
      }
    }
  }

  // Nothing comes after the end.
  lemma EndsAtEnd(lits: seq<nat>, g: Layout, x: nat, start: nat, m': nat, pl': Place, m: nat, zlibLen: nat)
    requires Reached(lits, g, x, start, m', pl') && Ends(lits, g, x, pl', zlibLen) && Channels(g.c)
      && After(lits, g, x, start, m).Some?
    ensures m <= m' && pl'.pos <= 8 * zlibLen - 32
    ensures m == m' ==> After(lits, g, x, start, m).value == pl'
  {
    hide ReadToken, PlayOne, Upper, Symbol;
    assert After(lits, g, x, start, m' + 1).None?;
    NothingLater(lits, g, x, start, m' + 1, m);
  }

  lemma FurtherLost(lits: seq<nat>, g: Layout, x: nat, start: nat, m: nat, pl: Place, m': nat, limit: int)
    requires Reached(lits, g, x, start, m, pl) && pl.s.y < g.h && m < m' && After(lits, g, x, start, m').Some?
    requires var t := ReadToken(lits, g.c, pl.s.started, Upper(x, pl.pos));
      LostToken(t, pl.pos, limit) || PlayOne(g, pl.s, t.value.tok).None?
    ensures After(lits, g, x, start, m').value.pos > limit
  {
    hide ReadToken, PlayOne, Upper, Symbol;
    ReachedBack(lits, g, x, start, m', m + 1);
  }

  // At the end of the image there is nothing else to be found.
  lemma NotTheEnd(lits: seq<nat>, g: Layout, x: nat, start: nat, m: nat, pl: Place, zlibLen: nat)
    requires Reached(lits, g, x, start, m, pl) && pl.s.y >= g.h && !Ends(lits, g, x, pl, zlibLen)
    ensures Undecodable(lits, g, x, start, zlibLen)
  {
    hide ReadToken, PlayOne, Upper, Symbol, Ends;
    forall out: seq<nat>
      ensures !Decodes(lits, g, x, start, zlibLen, out)
    {
      if Decodes(lits, g, x, start, zlibLen, out) {
        var m': nat, pl': Place :| Reached(lits, g, x, start, m', pl') && Ends(lits, g, x, pl', zlibLen)
            && out == pl'.s.out;
        EndsAtEnd(lits, g, x, start, m', pl', m, zlibLen);
        assert After(lits, g, x, start, m + 1).None?;
        NothingLater(lits, g, x, start, m + 1, m');
      }
    }
  }

  // --- differences -------------------------------------------------------------------------------

  // The bytes of the last pixel of the filtered image.
  datatype Delta = Delta(b0: nat, b1: nat, b2: nat, b3: nat)

  ghost predicate DeltaIs(g: Layout, v: nat, t: Delta) {
    && t.b0 < 256 && t.b1 < 256 && t.b2 < 256 && t.b3 < 256
    && v == if g.c == 3 then Bytes3(t.b0, t.b1, t.b2) else Bytes4(t.b0, t.b1, t.b2, t.b3)
  }

  lemma DeltaBytes(g: Layout, v: nat, t: Delta)
    requires Channels(g.c) && DeltaIs(g, v, t)
    ensures t.b0 == Byte(v, 0) && t.b1 == Byte(v, 1) && t.b2 == Byte(v, 2) && (g.c == 4 ==> t.b3 == Byte(v, 3))
    ensures v == 0 <==> t.b0 == t.b1 == t.b2 == 0 && (g.c == 4 ==> t.b3 == 0)
  {
    var buf := [t.b0, t.b1, t.b2, t.b3];
    assert ReadPixel(buf, 0, g.c) == v;
    PixelBytesAre(buf, 0, g.c);
    hide Byte;
    assert buf[0 + 0] == t.b0 && buf[0 + 1] == t.b1 && buf[0 + 2] == t.b2 && buf[0 + 3] == t.b3;
  }

  // --- runs --------------------------------------------------------------------------------------

  // In the row y, at position cur, n pixels of which are there.
  ghost predicate InImage(g: Layout, w: nat, d: seq<nat>, y: nat, cur: nat, n: nat, s: Play, t: Delta) {
    Drawn(g, w, d, cur, n, s) && (n < w ==> s.y == y && DeltaIs(g, s.delta, t)) && (n >= w ==> s.y == y + 1)
  }

  lemma InImageFacts(g: Layout, w: nat, d: seq<nat>, y: nat, cur: nat, n: nat, s: Play, t: Delta)
    requires InImage(g, w, d, y, cur, n, s, t) && n < w
    ensures RowsFit(g, w) && Drawing(g, w, d, cur, n, s) && s.y == y && s.started && DeltaIs(g, s.delta, t)
      && t.b0 < 256
      && t.b1 < 256 && t.b2 < 256 && t.b3 < 256
  {
    hide Proper;
  }

  // One pixel with the given difference.
  method DrawOne(dst: array<nat>, g: Layout, w: nat, y: nat, cur: nat, x: nat, t: Delta, ghost n: nat, ghost s: Play,
      ghost v: nat)
    requires Drawing(g, w, dst[..], cur, n, s) && s.y == y && x == Px(n, g.d) && DeltaIs(g, v, t)
    modifies dst
    ensures InImage(g, w, dst[..], y, cur, n + 1, PutPixel(g, s, v), t) && PutPixel(g, s, v).delta == v
  {
    hide Drawing, Drawn, Byte, PutPixel;
    DrawFacts(g, w, dst[..], cur, n, s);
    DeltaBytes(g, v, t);
    DrawPixel(dst, g, w, cur, x, y > 0, t.b0, t.b1, t.b2, t.b3, n, s, v);
  }

  // The pixel above once more.
  method CopyOne(dst: array<nat>, g: Layout, w: nat, y: nat, cur: nat, x: nat, t: Delta, ghost n: nat, ghost s: Play)
    requires Drawing(g, w, dst[..], cur, n, s) && s.y == y > 0 && x == Px(n, g.d) && DeltaIs(g, 0, t)
    modifies dst
    ensures InImage(g, w, dst[..], y, cur, n + 1, PutPixel(g, s, 0), t) && PutPixel(g, s, 0).delta == 0
  {
    hide Drawing, Drawn, PutPixel;
    DrawFacts(g, w, dst[..], cur, n, s);
    CopyPixel(dst, g, w, cur, x, n, s);
  }

  // The first j pixels of a run from n on.
  ghost predicate InRun(g: Layout, w: nat, d: seq<nat>, y: nat, cur: nat, n: nat, j: nat, s: Play, t: Delta) {
    n + j <= w && InImage(g, w, d, y, cur, n + j, PutRun(g, s, j), t) && PutRun(g, s, j).delta == s.delta
  }

  lemma RunBegins(g: Layout, w: nat, d: seq<nat>, y: nat, cur: nat, n: nat, s: Play, t: Delta)
    requires InImage(g, w, d, y, cur, n, s, t) && n <= w
    ensures InRun(g, w, d, y, cur, n, 0, s, t)
  {
    hide InImage;
  }

  lemma RunGoesOn(g: Layout, w: nat, d: seq<nat>, y: nat, cur: nat, n: nat, j: nat, s: Play, t: Delta)
    requires n + j < w && InImage(g, w, d, y, cur, n + j + 1, PutPixel(g, PutRun(g, s, j), s.delta), t)
      && PutPixel(g, PutRun(g, s, j), s.delta).delta == s.delta
    ensures InRun(g, w, d, y, cur, n, j + 1, s, t)
  {
    hide InImage, PutPixel;
  }

  lemma RunAt(g: Layout, w: nat, d: seq<nat>, y: nat, cur: nat, n: nat, j: nat, s: Play, t: Delta)
    requires InRun(g, w, d, y, cur, n, j, s, t)
    ensures n + j <= w && InImage(g, w, d, y, cur, n + j, PutRun(g, s, j), t) && PutRun(g, s, j).delta == s.delta
    ensures n + j < w ==> Drawing(g, w, d, cur, n + j, PutRun(g, s, j)) && PutRun(g, s, j).y == y
    ensures n + j < w ==> DeltaIs(g, s.delta, t)
  {
    hide PutPixel, Proper, Drawing;
  }

  // A run of k pixels: copied from the row above if all differences are zero, and otherwise drawn one by one.
  method DrawRun(dst: array<nat>, g: Layout, w: nat, y: nat, cur: nat, x: nat, xEnd: nat, t: Delta, ghost n: nat,
      ghost k: nat,
      ghost s: Play)
    requires Channels(g.d) && n < w && 1 <= k && n + k <= w && InImage(g, w, dst[..], y, cur, n, s, t)
      && x == Px(n, g.d)
      && xEnd == Px(n + k, g.d)
    modifies dst
    ensures InImage(g, w, dst[..], y, cur, n + k, PutRun(g, s, k), t)
  {
    hide InImage, InRun, Drawing, PutPixel, PutRun, DeltaIs;
    InImageFacts(g, w, dst[..], y, cur, n, s, t);
    DeltaBytes(g, s.delta, t);
    RunBegins(g, w, dst[..], y, cur, n, s, t);
    var copy := y > 0 && t.b0 == 0 && t.b1 == 0 && t.b2 == 0 && (g.c == 3 || t.b3 == 0);
    var xOfs: int := x;
    ghost var j: int := 0;
    while xOfs < xEnd
      invariant 0 <= j <= k && xOfs == Px(n + j, g.d) && InRun(g, w, dst[..], y, cur, n, j, s, t)
    {
      RunAt(g, w, dst[..], y, cur, n, j, s, t);
      if copy {
        CopyOne(dst, g, w, y, cur, xOfs, t, n + j, PutRun(g, s, j));
      } else {
        DrawOne(dst, g, w, y, cur, xOfs, t, n + j, PutRun(g, s, j), s.delta);
      }
      RunGoesOn(g, w, dst[..], y, cur, n, j, s, t);
      xOfs := xOfs + g.d;
      j := j + 1;
    }
    RunAt(g, w, dst[..], y, cur, n, j, s, t);
  }

  // --- one round of the pixel loops --------------------------------------------------------------

  // Everything that stays the same while the image is decoded. The bytes reach four bytes beyond the stream.
  ghost predicate Decoder(g: Layout, w: nat, lits: seq<nat>, table: seq<nat>, zlibLen: nat, srcLen: nat) {
    RowsFit(g, w) && Decoding(table, lits) && srcLen >= zlibLen + 4
  }

  // After m tokens the reader is at pl, and in row y there are n pixels.
  ghost predicate Going(lits: seq<nat>, g: Layout, w: nat, x: nat, start: nat, d: seq<nat>, y: nat, cur: nat, n: nat,
      m: nat,
      pl: Place, t: Delta) {
    y < g.h && n <= w && Reached(lits, g, x, start, m, pl) && InImage(g, w, d, y, cur, n, pl.s, t)
  }

  ghost predicate MidRow(g: Layout, w: nat, d: seq<nat>, y: nat, cur: nat, n: nat, s: Play, t: Delta) {
    n < w && InImage(g, w, d, y, cur, n, s, t)
  }

  lemma GoingFacts(lits: seq<nat>, g: Layout, w: nat, x: nat, start: nat, d: seq<nat>, y: nat, cur: nat, n: nat, m: nat,
      pl: Place,
      t: Delta)
    requires Going(lits, g, w, x, start, d, y, cur, n, m, pl, t) && n < w
    ensures Reached(lits, g, x, start, m, pl) && MidRow(g, w, d, y, cur, n, pl.s, t) && RowsFit(g, w)
      && Drawing(g, w, d, cur, n, pl.s)
    ensures pl.s.y == y < g.h && pl.s.started && |pl.s.cur| == Px(n, g.d) && g.dbpl == Px(w, g.d)
    ensures y > 0 <==> |pl.s.prev| > 0
    ensures DeltaIs(g, pl.s.delta, t)
  {
    hide After, Proper;
    InImageFacts(g, w, d, y, cur, n, pl.s, t);
  }

  // The token at pl is not there, or illegal.
  lemma Rejected(lits: seq<nat>, g: Layout, w: nat, x: nat, start: nat, d: seq<nat>, y: nat, cur: nat, n: nat, m: nat,
      pl: Place,
      t: Delta, zlibLen: nat, limit: int)
    requires Going(lits, g, w, x, start, d, y, cur, n, m, pl, t) && n < w && limit >= 8 * zlibLen - 32 && Channels(g.c)
    requires var t := ReadToken(lits, g.c, true, Upper(x, pl.pos));
      LostToken(t, pl.pos, limit) || PlayOne(g, pl.s, t.value.tok).None?
    ensures Undecodable(lits, g, x, start, zlibLen)
  {
    hide Upper, ReadToken, PlayOne, After, MidRow, Drawing, Undecodable, InImage;
    GoingFacts(lits, g, w, x, start, d, y, cur, n, m, pl, t);
    Stuck(lits, g, x, start, m, pl, zlibLen, limit);
  }

  // The token at pl has been played.
  lemma Accepted(lits: seq<nat>, g: Layout, w: nat, x: nat, start: nat, d: seq<nat>, y: nat, cur: nat, n: nat, m: nat,
      pl: Place,
      t: Delta, tok: Token, len: nat,
                 d': seq<nat>, n': nat, t': Delta)
    requires Going(lits, g, w, x, start, d, y, cur, n, m, pl, t) && n < w && Channels(g.c)
      && ReadToken(lits, g.c, true, Upper(x, pl.pos)) == Some(Read(tok, len))
    requires PlayOne(g, pl.s, tok).Some? && n' <= w && InImage(g, w, d', y, cur, n', PlayOne(g, pl.s, tok).value, t')
    ensures Going(lits, g, w, x, start, d', y, cur, n', m + 1, Place(pl.pos + len, PlayOne(g, pl.s, tok).value), t')
  {
    hide Upper, ReadToken, PlayOne, After, MidRow, Drawing, InImage, Reached;
    GoingFacts(lits, g, w, x, start, d, y, cur, n, m, pl, t);
    ReachedNext(lits, g, x, start, m, pl, tok, len);
  }

  // A pixel has been read and is drawn.
  method GotPixel(dst: array<nat>, ghost lits: seq<nat>, g: Layout, w: nat, ghost x: nat, ghost start: nat, y: nat,
      cur: nat,
      xOfs: nat,
      ghost n: nat, ghost m: nat, ghost pl: Place, ghost t: Delta, t': Delta, ghost v: nat, ghost q: nat)
    returns (xOfs': nat, ghost pl': Place)
    requires Going(lits, g, w, x, start, dst[..], y, cur, n, m, pl, t) && n < w && xOfs == Px(n, g.d) && Channels(g.c)
    requires pl.pos < q && DeltaIs(g, v, t') && ReadToken(lits, g.c, true,
      Upper(x, pl.pos)) == Some(Read(Pixel(v), q - pl.pos))
    modifies dst
    ensures Going(lits, g, w, x, start, dst[..], y, cur, n + 1, m + 1, pl', t') && pl'.pos == q
      && xOfs' == Px(n + 1, g.d)
  {
    hide Upper, ReadToken, After, MidRow, Drawing, InImage, Going, Reached, DeltaIs, PutPixel;
    ghost var before := dst[..];
    GoingFacts(lits, g, w, x, start, before, y, cur, n, m, pl, t);
    DrawOne(dst, g, w, y, cur, xOfs, t', n, pl.s, v);
    Accepted(lits, g, w, x, start, before, y, cur, n, m, pl, t, Pixel(v), q - pl.pos, dst[..], n + 1, t');
    pl' := Place(q, PutPixel(g, pl.s, v));
    xOfs' := xOfs + g.d;
  }

  // The bytes that a run of this many bytes takes with four channels instead of three; 0 if it is not a run of pixels.
  function RunLen3To4(len: nat): nat { if len % 3 == 0 then len / 3 * 4 else 0 }

  // A run of three-byte pixels has been read and is drawn, unless it is no run of whole pixels or crosses rows.
  method GotRun3(dst: array<nat>, ghost lits: seq<nat>, g: Layout, w: nat, ghost x: nat, ghost start: nat, y: nat,
      cur: nat,
      xOfs: nat, len: nat,
      ghost n: nat, ghost m: nat, ghost pl: Place, t: Delta, ghost q: nat, ghost zlibLen: nat, ghost limit: int)
    returns (ok: bool, xOfs': nat, ghost n': nat, ghost pl': Place)
    requires g.c == 3 && Going(lits, g, w, x, start, dst[..], y, cur, n, m, pl, t) && n < w && xOfs == Px(n, g.d)
      && limit >= 8 * zlibLen - 32
    requires pl.pos < q && ReadToken(lits, 3, true, Upper(x, pl.pos)) == if len % 3 != 0 then None
      else Some(Read(Run(len / 3), q - pl.pos))
    modifies dst
    ensures ok ==> n < n' <= w && Going(lits, g, w, x, start, dst[..], y, cur, n', m + 1, pl', t) && pl'.pos == q
    ensures ok ==> xOfs' == Px(n', g.d)
    ensures !ok ==> Undecodable(lits, g, x, start, zlibLen)
  {
    hide Upper, ReadToken, After, Drawing, InImage, Going, Reached, DeltaIs, PutRun, PutPixel, Undecodable;
    ghost var before, token, k := dst[..], ReadToken(lits, 3, true, Upper(x, pl.pos)), len / 3;
    GoingFacts(lits, g, w, x, start, before, y, cur, n, m, pl, t);
    xOfs', n', pl' := xOfs, n, pl;
    var xEnd := if g.d == 4 then xOfs + RunLen3To4(len) else xOfs + len;
    if RunLen3To4(len) == 0 || xEnd > g.dbpl {
      Rejected(lits, g, w, x, start, before, y, cur, n, m, pl, t, zlibLen, limit);
      return false, xOfs', n', pl';
    }
    DrawRun(dst, g, w, y, cur, xOfs, xEnd, t, n, k, pl.s);
    n' := n + k;
    Accepted(lits, g, w, x, start, before, y, cur, n, m, pl, t, Run(k), q - pl.pos, dst[..], n', t);
    pl' := Place(q, PutRun(g, pl.s, k));
    xOfs' := xEnd;
    ok := true;
  }

  // The same with four-byte pixels. A run of no bytes draws one pixel, unless it would have been copied.
  method GotRun4(dst: array<nat>, ghost lits: seq<nat>, g: Layout, w: nat, ghost x: nat, ghost start: nat, y: nat,
      cur: nat,
      xOfs: nat, len: nat,
      ghost n: nat, ghost m: nat, ghost pl: Place, t: Delta, ghost q: nat, ghost zlibLen: nat, ghost limit: int)
    returns (ok: bool, xOfs': nat, ghost n': nat, ghost pl': Place)
    requires g.c == 4 && Going(lits, g, w, x, start, dst[..], y, cur, n, m, pl, t) && n < w && xOfs == Px(n, g.d)
      && limit >= 8 * zlibLen - 32
    requires pl.pos < q && ReadToken(lits, 4, true, Upper(x, pl.pos)) == if len % 4 != 0 then None
      else Some(Read(Run(len / 4), q - pl.pos))
    modifies dst
    ensures ok ==> n <= n' <= w && Going(lits, g, w, x, start, dst[..], y, cur, n', m + 1, pl', t) && pl'.pos == q
    ensures ok ==> xOfs' == Px(n', g.d)
    ensures !ok ==> Undecodable(lits, g, x, start, zlibLen)
  {
    hide Upper, ReadToken, After, Drawing, InImage, Going, Reached, DeltaIs, PutRun, PutPixel, Undecodable;
    ghost var before, token, k := dst[..], ReadToken(lits, 4, true, Upper(x, pl.pos)), len / 4;
    GoingFacts(lits, g, w, x, start, before, y, cur, n, m, pl, t);
    xOfs', n', pl' := xOfs, n, pl;
    if len % 4 != 0 {
      Rejected(lits, g, w, x, start, before, y, cur, n, m, pl, t, zlibLen, limit);
      return false, xOfs', n', pl';
    }
    var xEnd := if g.d == 3 then xOfs + len / 4 * 3 else xOfs + len;
    if xEnd > g.dbpl {
      Rejected(lits, g, w, x, start, before, y, cur, n, m, pl, t, zlibLen, limit);
      return false, xOfs', n', pl';
    }
    if len == 0 {
      DeltaBytes(g, pl.s.delta, t);
      var copy := y > 0 && t.b0 == 0 && t.b1 == 0 && t.b2 == 0 && t.b3 == 0;
      if copy {
        pl' := Place(q, pl.s);
      } else {
        DrawOne(dst, g, w, y, cur, xOfs, t, n, pl.s, pl.s.delta);
        n' := n + 1;
        xOfs' := xOfs + g.d;
        pl' := Place(q, PutPixel(g, pl.s, pl.s.delta));
      }
    } else {
      DrawRun(dst, g, w, y, cur, xOfs, xEnd, t, n, k, pl.s);
      n' := n + k;
      xOfs' := xEnd;
      pl' := Place(q, PutRun(g, pl.s, k));
    }
    Accepted(lits, g, w, x, start, before, y, cur, n, m, pl, t, Run(k), q - pl.pos, dst[..], n', t);
    ok := true;
  }

  lemma DecoderFacts(g: Layout, w: nat, lits: seq<nat>, table: seq<nat>, zlibLen: nat, srcLen: nat)
    requires Decoder(g, w, lits, table, zlibLen, srcLen)
    ensures Decoding(table, lits) && 8 * srcLen - 56 >= 8 * zlibLen - 32 && RowsFit(g, w) && Channels(g.c)
      && Channels(g.d)
      && g.dbpl == Px(w, g.d) && w > 0
    ensures SYMBOLS == |lits| > END_OF_BLOCK == 256
  {
    hide TableFor, Usable, Limited;
  }

  // The first symbol of a token, and the bits after it.
  method FirstEntry(r: BitReader.Reader, table: array<nat>, ghost lits: seq<nat>, c: nat, started: bool, ghost x: nat,
      ghost p: nat) returns (ok: bool, e: nat, ghost l: nat)
    requires Channels(c) && Decoding(table[..], lits) && StandsAt(r, x, p, TABLE_BITS)
    modifies r
    ensures ok ==> StandsAt(r, x, p + l, 32) && Literal(lits, x, p, e, l) && Next(lits, Upper(x, p), Sym(e), l)
    ensures ok ==> l > 0 && Sym(e) < |lits|
    ensures !ok ==> LostToken(ReadToken(lits, c, started, Upper(x, p)), p, 8 * |r.src| - 56)
  {
    hide Upper, Decoding, Symbol, StandsAt, Literal, ReadToken, LostToken, Sym, Len, Sym2, Len2, Half2;
    var len;
    e, len := LookUp(r, table, lits, x, p);
    l := len;
    if len == 0 {
      NoSymbol(lits, c, started, Upper(x, p));
      LostNone(ReadToken(lits, c, started, Upper(x, p)), p, 8 * |r.src| - 56);
      return false, e, l;
    }
    LiteralNext(lits, x, p, e, l);
    ok := TakeAndRefill(r, len, x, p, TABLE_BITS);
    if !ok {
      FirstSymbol(lits, c, started, Upper(x, p), Sym(e), l);
      LostAfter(ReadToken(lits, c, started, Upper(x, p)), p, 8 * |r.src| - 56, l);
    }
  }

  // The end of the block where a pixel or a run is expected.
  lemma NoEnd(lits: seq<nat>, c: nat, y: nat, s: nat, l: nat, p: nat, limit: int)
    requires Channels(c) && Next(lits, y, s, l) && s == END_OF_BLOCK
    ensures LostToken(ReadToken(lits, c, true, y), p, limit)
  {
    hide Symbol;
    FirstSymbol(lits, c, true, y, s, l);
  }

  lemma DeltaMade(g: Layout, b0: nat, b1: nat, b2: nat, b3: nat)
    requires b0 < 256 && b1 < 256 && b2 < 256 && b3 < 256
    ensures g.c == 3 ==> DeltaIs(g, Bytes3(b0, b1, b2), Delta(b0, b1, b2, b3))
    ensures g.c == 4 ==> DeltaIs(g, Bytes4(b0, b1, b2, b3), Delta(b0, b1, b2, b3))
  {
  }

  // One round of the loop for three channels: a run, or a pixel and perhaps another one.
  method Round3(r: BitReader.Reader, table: array<nat>, dst: array<nat>, ghost lits: seq<nat>, g: Layout, w: nat,
      ghost x: nat,
      ghost start: nat, y: nat, cur: nat, xOfs: nat, t: Delta,
      ghost n: nat, ghost m: nat, ghost pl: Place, ghost zlibLen: nat)
    returns (ok: bool, xOfs': nat, t': Delta, ghost n': nat, ghost m': nat, ghost pl': Place)
    requires table != dst && g.c == 3 && Decoder(g, w, lits, table[..], zlibLen, |r.src|)
      && StandsAt(r, x, pl.pos, TABLE_BITS)
    requires Going(lits, g, w, x, start, dst[..], y, cur, n, m, pl, t) && n < w && xOfs == Px(n, g.d)
    modifies r, dst
    ensures ok ==> StandsAt(r, x, pl'.pos, TABLE_BITS) && pl.pos < pl'.pos && n <= n' <= w && xOfs' == Px(n', g.d)
    ensures ok ==> Going(lits, g, w, x, start, dst[..], y, cur, n', m', pl', t')
    ensures !ok ==> Undecodable(lits, g, x, start, zlibLen)
  {
    hide Upper, ReadToken, LostToken, Drawing, InImage, Going, Reached, DeltaIs, Undecodable, Decoder, Decoding,
      StandsAt, Literal, Next,
      Symbol, Sym, Sym2, Len, Len2, Half2, PlayOne, Bytes3, Px;
    ghost var d0, limit := dst[..], 8 * |r.src| - 56;
    DecoderFacts(g, w, lits, table[..], zlibLen, |r.src|);
    xOfs', t', n', m', pl' := xOfs, t, n, m, pl;
    var e0;
    ghost var l0;
    ok, e0, l0 := FirstEntry(r, table, lits, 3, true, x, pl.pos);
    if !ok {
      Rejected(lits, g, w, x, start, d0, y, cur, n, m, pl, t, zlibLen, limit);
      return;
    }
    if Sym(e0) >= 256 {
      if Sym(e0) == 256 {
        NoEnd(lits, 3, Upper(x, pl.pos), Sym(e0), l0, pl.pos, limit);
        Rejected(lits, g, w, x, start, d0, y, cur, n, m, pl, t, zlibLen, limit);
        return false, xOfs', t', n', m', pl';
      }
      var len;
      ghost var q;
      len, q := RunLength(r, lits, 3, x, pl.pos, Sym(e0), l0);
      ok, xOfs', n', pl' := GotRun3(dst, lits, g, w, x, start, y, cur, xOfs, len, n, m, pl, t, q, zlibLen, limit);
      m' := m + 1;
      return;
    }
    ok, xOfs', t', n', m', pl' := PixelsThree(r, table, dst, lits, g, w, x, start, y, cur, xOfs, t, e0, l0, n, m, pl,
        zlibLen);
  }

  // A pixel of three literals, and another one if its first literal is known already.
  method PixelsThree(r: BitReader.Reader, table: array<nat>, dst: array<nat>, ghost lits: seq<nat>, g: Layout, w: nat,
      ghost x: nat,
      ghost start: nat, y: nat, cur: nat, xOfs: nat, t: Delta,
                     e0: nat, ghost l0: nat, ghost n: nat, ghost m: nat, ghost pl: Place, ghost zlibLen: nat)
    returns (ok: bool, xOfs': nat, t': Delta, ghost n': nat, ghost m': nat, ghost pl': Place)
    requires table != dst && g.c == 3 && Decoder(g, w, lits, table[..], zlibLen, |r.src|)
    requires Going(lits, g, w, x, start, dst[..], y, cur, n, m, pl, t) && n < w && xOfs == Px(n, g.d)
    requires StandsAt(r, x, pl.pos + l0, 32) && Literal(lits, x, pl.pos, e0, l0) && Sym(e0) < 256
    modifies r, dst
    ensures ok ==> StandsAt(r, x, pl'.pos, TABLE_BITS) && pl.pos < pl'.pos && n <= n' <= w && xOfs' == Px(n', g.d)
    ensures ok ==> Going(lits, g, w, x, start, dst[..], y, cur, n', m', pl', t')
    ensures !ok ==> Undecodable(lits, g, x, start, zlibLen)
  {
    hide Upper, ReadToken, LostToken, Drawing, InImage, Going, Reached, DeltaIs, Undecodable, Decoder, Decoding,
      StandsAt, Literal, Next,
      Symbol, Sym, Sym2, Len, Len2, Half2, PlayOne, Bytes3;
    ghost var limit := 8 * |r.src| - 56;
    DecoderFacts(g, w, lits, table[..], zlibLen, |r.src|);
    xOfs', t', n', m', pl' := xOfs, t, n, m, pl;
    var s1, e2;
    ghost var l2, q;
    ok, s1, e2, l2, q := ThreeChannels(r, table, lits, x, pl.pos, e0, l0);
    if !ok {
      Rejected(lits, g, w, x, start, dst[..], y, cur, n, m, pl, t, zlibLen, limit);
      return;
    }
    t' := Delta(Sym(e0), s1, Sym(e2), 0);
    DeltaMade(g, Sym(e0), s1, Sym(e2), 0);
    xOfs', pl' := GotPixel(dst, lits, g, w, x, start, y, cur, xOfs, n, m, pl, t, t', Bytes3(Sym(e0), s1, Sym(e2)), q);
    n', m' := n + 1, m + 1;
    if Len2(e2) != 0 && xOfs' < g.dbpl && Sym2(e2) < 256 {
      ghost var pl1, t1, d1 := pl', t', dst[..];
      var s1', s2';
      ok, s1', s2', q := SpeculativePixel(r, table, lits, x, q, e2, l2);
      if !ok {
        Rejected(lits, g, w, x, start, d1, y, cur, n + 1, m + 1, pl1, t1, zlibLen, limit);
        return;
      }
      t' := Delta(Sym2(e2), s1', s2', 0);
      DeltaMade(g, Sym2(e2), s1', s2', 0);
      xOfs', pl' := GotPixel(dst, lits, g, w, x, start, y, cur, xOfs', n + 1, m + 1, pl1, t1, t',
          Bytes3(Sym2(e2), s1', s2'), q);
      n', m' := n + 2, m + 2;
    } else {
      Enough(r, x, q, 32);
    }
  }

  // One round of the loop for four channels: a run or a pixel.
  method Round4(r: BitReader.Reader, table: array<nat>, dst: array<nat>, ghost lits: seq<nat>, g: Layout, w: nat,
      ghost x: nat,
      ghost start: nat, y: nat, cur: nat, xOfs: nat, t: Delta,
      ghost n: nat, ghost m: nat, ghost pl: Place, ghost zlibLen: nat)
    returns (ok: bool, xOfs': nat, t': Delta, ghost n': nat, ghost m': nat, ghost pl': Place)
    requires table != dst && g.c == 4 && Decoder(g, w, lits, table[..], zlibLen, |r.src|)
      && StandsAt(r, x, pl.pos, TABLE_BITS)
    requires Going(lits, g, w, x, start, dst[..], y, cur, n, m, pl, t) && n < w && xOfs == Px(n, g.d)
    modifies r, dst
    ensures ok ==> StandsAt(r, x, pl'.pos, TABLE_BITS) && pl.pos < pl'.pos && n <= n' <= w && xOfs' == Px(n', g.d)
    ensures ok ==> Going(lits, g, w, x, start, dst[..], y, cur, n', m', pl', t')
    ensures !ok ==> Undecodable(lits, g, x, start, zlibLen)
  {
    hide Upper, ReadToken, LostToken, Drawing, InImage, Going, Reached, DeltaIs, Undecodable, Decoder, Decoding,
      StandsAt, Literal, Next,
      Symbol, Sym, Sym2, Len, Len2, Half2, PlayOne, Bytes4, Px;
    ghost var d0, limit := dst[..], 8 * |r.src| - 56;
    DecoderFacts(g, w, lits, table[..], zlibLen, |r.src|);
    xOfs', t', n', m', pl' := xOfs, t, n, m + 1, pl;
    var e0;
    ghost var l0, q;
    ok, e0, l0 := FirstEntry(r, table, lits, 4, true, x, pl.pos);
    if !ok {
      Rejected(lits, g, w, x, start, d0, y, cur, n, m, pl, t, zlibLen, limit);
      return;
    }
    if Sym(e0) >= 256 {
      if Sym(e0) == 256 {
        NoEnd(lits, 4, Upper(x, pl.pos), Sym(e0), l0, pl.pos, limit);
        Rejected(lits, g, w, x, start, d0, y, cur, n, m, pl, t, zlibLen, limit);
        return false, xOfs', t', n', m', pl';
      }
      var len;
      len, q := RunLength(r, lits, 4, x, pl.pos, Sym(e0), l0);
      ok, xOfs', n', pl' := GotRun4(dst, lits, g, w, x, start, y, cur, xOfs, len, n, m, pl, t, q, zlibLen, limit);
      return;
    }
    var s1, s2, s3;
    ok, s1, s2, s3, q := FourChannels(r, table, lits, x, pl.pos, e0, l0);
    if !ok {
      Rejected(lits, g, w, x, start, d0, y, cur, n, m, pl, t, zlibLen, limit);
      return;
    }
    t' := Delta(Sym(e0), s1, s2, s3);
    DeltaMade(g, Sym(e0), s1, s2, s3);
    xOfs', pl' := GotPixel(dst, lits, g, w, x, start, y, cur, xOfs, n, m, pl, t, t', Bytes4(Sym(e0), s1, s2, s3), q);
    n' := n + 1;
  }

  // --- rows --------------------------------------------------------------------------------------

  lemma RowBegins(lits: seq<nat>, g: Layout, w: nat, x: nat, start: nat, d: seq<nat>, y: nat, cur: nat, m: nat,
      pl: Place, f: nat,
      len: nat)
    requires Reached(lits, g, x, start, m, pl) && RowStart(g, w, d, cur, pl.s) && pl.s.y == y < g.h
      && cur + g.dbpl <= |d|
    requires f == (if y == 0 then 0 else 2) && ReadToken(lits, g.c, false,
      Upper(x, pl.pos)) == Some(Read(Filter(f), len))
    ensures var pl' := Place(pl.pos + len, pl.s.(started := true, delta := 0));
      Going(lits, g, w, x, start, d, y, cur, 0, m + 1, pl', Delta(0, 0, 0, 0))
  {
    hide Upper, ReadToken, Reached;
    ReachedNext(lits, g, x, start, m, pl, Filter(f), len);
    assert Proper(g, []);
    assert d[..cur + 0] == pl.s.out + [];
  }

  // The reader is before row y, which is to be written at position cur.
  ghost predicate BeforeRow(lits: seq<nat>, g: Layout, w: nat, x: nat, start: nat, d: seq<nat>, y: nat, cur: nat,
      m: nat,
      pl: Place) {
    Reached(lits, g, x, start, m, pl) && RowStart(g, w, d, cur, pl.s) && pl.s.y == y
  }

  lemma BeforeRowFacts(lits: seq<nat>, g: Layout, w: nat, x: nat, start: nat, d: seq<nat>, y: nat, cur: nat, m: nat,
      pl: Place)
    requires BeforeRow(lits, g, w, x, start, d, y, cur, m, pl)
    ensures Reached(lits, g, x, start, m, pl) && RowStart(g, w, d, cur, pl.s) && pl.s.y == y && !pl.s.started
      && pl.s.out == d[..cur] && cur <= |d|
  {
    hide After, PrevIn;
  }

  lemma RowEnds(lits: seq<nat>, g: Layout, w: nat, x: nat, start: nat, d: seq<nat>, y: nat, cur: nat, n: nat, m: nat,
      pl: Place,
      t: Delta)
    requires Going(lits, g, w, x, start, d, y, cur, n, m, pl, t) && n >= w
    ensures BeforeRow(lits, g, w, x, start, d, y + 1, cur + g.dbpl, m, pl)
  {
    hide After, PrevIn, Drawing;
  }

  lemma Inside(r: BitReader.Reader, x: nat, p: int, bits: int)
    requires StandsAt(r, x, p, bits)
    ensures 0 <= p <= 8 * |r.src|
  {
    hide Buffers, Number;
  }

  lemma InsideRow(g: Layout, w: nat, n: nat)
    requires Channels(g.d) && g.dbpl == Px(w, g.d) && n <= w
    ensures Px(n, g.d) < g.dbpl <==> n < w
  {
  }

  // The filter type at the start of a row.
  method ReadFilterType(r: BitReader.Reader, table: array<nat>, ghost lits: seq<nat>, g: Layout, w: nat, ghost x: nat,
      ghost start: nat, ghost d: seq<nat>, y: nat, cur: nat,
      ghost m: nat, ghost pl: Place, ghost zlibLen: nat) returns (ok: bool, ghost pl': Place)
    requires Decoder(g, w, lits, table[..], zlibLen, |r.src|) && StandsAt(r, x, pl.pos, TABLE_BITS)
    requires BeforeRow(lits, g, w, x, start, d, y, cur, m, pl) && y < g.h && cur + g.dbpl <= |d|
    modifies r
    ensures ok ==> StandsAt(r, x, pl'.pos, 32)
    ensures ok ==> Going(lits, g, w, x, start, d, y, cur, 0, m + 1, pl', Delta(0, 0, 0, 0))
    ensures !ok ==> Undecodable(lits, g, x, start, zlibLen)
  {
    hide Upper, ReadToken, LostToken, RowStart, Going, Reached, Undecodable, Decoder, Decoding, StandsAt, Literal, Next,
      Symbol, Sym, Len,
      BeforeRow;
    ghost var limit := 8 * |r.src| - 56;
    DecoderFacts(g, w, lits, table[..], zlibLen, |r.src|);
    BeforeRowFacts(lits, g, w, x, start, d, y, cur, m, pl);
    pl' := pl;
    var e;
    ghost var l;
    ok, e, l := FirstEntry(r, table, lits, g.c, false, x, pl.pos);
    if !ok {
      Stuck(lits, g, x, start, m, pl, zlibLen, limit);
      return;
    }
    var filter := Sym(e);
    var expectedFilter := if y > 0 then 2 else 0;
    FirstSymbol(lits, g.c, false, Upper(x, pl.pos), filter, l);
    if filter != expectedFilter {
      Stuck(lits, g, x, start, m, pl, zlibLen, limit);
      return false, pl';
    }
    RowBegins(lits, g, w, x, start, d, y, cur, m, pl, filter, l);
    pl' := Place(pl.pos + l, pl.s.(started := true, delta := 0));
  }

  // One row.
  method DecodeRow(r: BitReader.Reader, table: array<nat>, dst: array<nat>, ghost lits: seq<nat>, g: Layout, w: nat,
      ghost x: nat,
      ghost start: nat, y: nat, cur: nat,
      ghost m: nat, ghost pl: Place, ghost zlibLen: nat) returns (ok: bool, ghost m': nat, ghost pl': Place)
    requires table != dst && Decoder(g, w, lits, table[..], zlibLen, |r.src|) && StandsAt(r, x, pl.pos, TABLE_BITS)
    requires BeforeRow(lits, g, w, x, start, dst[..], y, cur, m, pl) && y < g.h && cur + g.dbpl <= dst.Length
    modifies r, dst
    ensures ok ==> StandsAt(r, x, pl'.pos, TABLE_BITS)
    ensures ok ==> BeforeRow(lits, g, w, x, start, dst[..], y + 1, cur + g.dbpl, m', pl')
    ensures !ok ==> Undecodable(lits, g, x, start, zlibLen)
  {
    hide Upper, Going, Undecodable, Decoder, Decoding, StandsAt, BeforeRow, Px;
    DecoderFacts(g, w, lits, table[..], zlibLen, |r.src|);
    ghost var tab := table[..];
    m', pl' := m + 1, pl;
    ok, pl' := ReadFilterType(r, table, lits, g, w, x, start, dst[..], y, cur, m, pl, zlibLen);
    if !ok { return; }
    Enough(r, x, pl'.pos, 32);
    var xOfs, t := 0, Delta(0, 0, 0, 0);
    ghost var n := 0;
    NothingDrawn(g);
    InsideRow(g, w, n);
    while xOfs < g.dbpl
      invariant table[..] == tab && StandsAt(r, x, pl'.pos, TABLE_BITS) && 0 <= n <= w && xOfs == Px(n, g.d)
        && (xOfs < g.dbpl <==> n < w)
      invariant Going(lits, g, w, x, start, dst[..], y, cur, n, m', pl', t)
      decreases 8 * |r.src| - pl'.pos
    {
      Inside(r, x, pl'.pos, TABLE_BITS);
      if g.c == 3 {
        ok, xOfs, t, n, m', pl' := Round3(r, table, dst, lits, g, w, x, start, y, cur, xOfs, t, n, m', pl', zlibLen);
      } else {
        ok, xOfs, t, n, m', pl' := Round4(r, table, dst, lits, g, w, x, start, y, cur, xOfs, t, n, m', pl', zlibLen);
      }
      if !ok { return; }
      Inside(r, x, pl'.pos, TABLE_BITS);
      InsideRow(g, w, n);
    }
    ok := true;
    RowEnds(lits, g, w, x, start, dst[..], y, cur, n, m', pl', t);
  }

  lemma NothingDrawn(g: Layout)
    ensures Px(0, g.d) == 0
  {
  }

  // All rows.
  method DecodeRows(r: BitReader.Reader, table: array<nat>, dst: array<nat>, ghost lits: seq<nat>, g: Layout, w: nat,
      ghost x: nat,
      ghost start: nat, ghost zlibLen: nat)
    returns (ok: bool, ghost m: nat, ghost pl: Place)
    requires table != dst && Decoder(g, w, lits, table[..], zlibLen, |r.src|) && StandsAt(r, x, start, TABLE_BITS)
      && Rows(g.h, g.dbpl, dst.Length)
    modifies r, dst
    ensures ok ==> StandsAt(r, x, pl.pos, TABLE_BITS)
    ensures ok ==> BeforeRow(lits, g, w, x, start, dst[..], g.h, dst.Length, m, pl)
    ensures !ok ==> Undecodable(lits, g, x, start, zlibLen)
  {
    hide Undecodable, Decoder, StandsAt, BeforeRow, Rows, Px;
    DecoderFacts(g, w, lits, table[..], zlibLen, |r.src|);
    ghost var tab := table[..];
    m, pl := 0, Place(start, Blank());
    FirstRow(lits, g, w, x, start, dst[..]);
    var y, cur := 0, 0;
    while y < g.h
      invariant table[..] == tab && 0 <= y <= g.h && 0 <= cur <= dst.Length && Rows(g.h - y, g.dbpl, dst.Length - cur)
      invariant StandsAt(r, x, pl.pos, TABLE_BITS) && BeforeRow(lits, g, w, x, start, dst[..], y, cur, m, pl)
    {
      RowsStep(g.h - y, g.dbpl, dst.Length - cur);
      ok, m, pl := DecodeRow(r, table, dst, lits, g, w, x, start, y, cur, m, pl, zlibLen);
      if !ok { return; }
      cur := cur + g.dbpl;
      y := y + 1;
    }
    RowsStep(0, g.dbpl, dst.Length - cur);
    ok := true;
  }

  lemma FirstRow(lits: seq<nat>, g: Layout, w: nat, x: nat, start: nat, d: seq<nat>)
    requires RowsFit(g, w)
    ensures BeforeRow(lits, g, w, x, start, d, 0, 0, 0, Place(start, Blank()))
  {
    assert d[..0] == [];
  }

  // --- the end of the block ------------------------------------------------------------

  // Where the bytes go on after the bits that have been consumed, which is known from what is left in the buffer.
  lemma EndOfBits(r: BitReader.Reader, x: nat, p: nat, l: nat)
    requires StandsAt(r, x, p, TABLE_BITS) && l <= TABLE_BITS
    ensures var left := r.bitBufSize - l; left / 8 <= r.srcOfs && r.srcOfs - left / 8 == (p + l + 7) / 8
  {
    hide Buffers, Number;
    var left := r.bitBufSize - l;
    var q := left / 8;
    var align := left % 8;
    assert p + l == 8 * (r.srcOfs - q) - align;
    DivModIs(p + l + 7, 8, r.srcOfs - q, 7 - align);
  }

  // The end of the block must follow, and the checksum after it must be the end of the stream. More bytes than there
  // were are never given back to the stream.
  method FinishBlock(r: BitReader.Reader, table: array<nat>, ghost lits: seq<nat>, g: Layout, ghost x: nat,
      ghost start: nat,
      ghost m: nat, ghost pl: Place, zlibLen: nat) returns (ok: bool)
    requires Decoding(table[..], lits) && StandsAt(r, x, pl.pos, TABLE_BITS) && Reached(lits, g, x, start, m, pl)
      && pl.s.y == g.h
      && !pl.s.started
    ensures ok <==> Ends(lits, g, x, pl, zlibLen)
  {
    hide Upper, Decoding, StandsAt, Literal, Next, Symbol, Sym, Len, Reached;
    var e, l := LookUp(r, table, lits, x, pl.pos);
    if l == 0 { return false; }
    LiteralNext(lits, x, pl.pos, e, l);
    SymbolAt(lits, Upper(x, pl.pos), Sym(e), l);
    if Sym(e) != 256 { return false; }
    EndOfBits(r, x, pl.pos, l);
    var bitBufSize := r.bitBufSize - l;
    var alignBits := bitBufSize % 8;
    bitBufSize := bitBufSize - alignBits;
    var srcOfs := r.srcOfs - bitBufSize / 8;
    ok := srcOfs + 4 == zlibLen;
  }

  lemma SymbolAt(lits: seq<nat>, y: nat, s: nat, l: nat)
    requires Next(lits, y, s, l)
    ensures Symbol(lits, y) == Some(s) && s < |lits| && lits[s] == l
  {
    hide Symbol;
  }

  // The image in a dynamic block whose header starts at position p.
  method DecodeBlock(r: BitReader.Reader, dst: array<nat>, g: Layout, w: nat, zlibLen: nat) returns (ok: bool)
    requires r.Valid() && r.bitBufSize >= 32 && 0 <= r.Pos() && |r.src| >= zlibLen + 4 && RowsFit(g, w)
      && Rows(g.h, g.dbpl, dst.Length)
    modifies r, dst
    ensures ok ==> DecodesBlock(g, Number(r.src), old(r.Pos()), zlibLen, dst[..])
    ensures !ok ==> forall out: seq<nat> :: !DecodesBlock(g, Number(r.src), old(r.Pos()), zlibLen, out)
  {
    hide Upper, Number, Undecodable, Decoder, StandsAt, BeforeRow, Rows, Px, DynamicHeader.ReadHeader, TableFor, Usable,
      Limited, Reached,
      Ends, Lost;
    ghost var x, p := Number(r.src), r.Pos();
    var table := new nat[TABLE_SIZE](_ => 0);
    ghost var lits;
    ok, lits := PrepareDynamicBlock(r, g.c, table);
    if !ok {
      HeaderTooFar(g, x, p, zlibLen, 8 * |r.src| - 56);
      return;
    }
    ghost var start := r.Pos();
    BeginBlock(r, g, w, lits, table[..], zlibLen, x);
    ghost var m, pl;
    ok, m, pl := DecodeRows(r, table, dst, lits, g, w, x, start, zlibLen);
    if !ok {
      NoImage(g, x, p, zlibLen, lits, start - p);
      return;
    }
    BeforeRowFacts(lits, g, w, x, start, dst[..], g.h, dst.Length, m, pl);
    DecoderFacts(g, w, lits, table[..], zlibLen, |r.src|);
    ok := FinishBlock(r, table, lits, g, x, start, m, pl, zlibLen);
    if ok {
      assert dst[..dst.Length] == dst[..];
      GotImage(g, x, p, zlibLen, lits, start - p, m, pl, dst[..]);
    } else {
      NotTheEnd(lits, g, x, start, m, pl, zlibLen);
      NoImage(g, x, p, zlibLen, lits, start - p);
    }
  }

  // A dynamic block from position p on: its header, and an image in the code of the header.
  ghost predicate DecodesBlock(g: Layout, x: nat, p: nat, zlibLen: nat, out: seq<nat>) {
    && Channels(g.c) && DynamicHeader.ReadHeader(g.c, Upper(x, p)).Some?
    && var h := DynamicHeader.ReadHeader(g.c, Upper(x, p)).value; Decodes(h.sizes, g, x, p + h.len, zlibLen, out)
  }

  lemma BeginBlock(r: BitReader.Reader, g: Layout, w: nat, lits: seq<nat>, table: seq<nat>, zlibLen: nat, x: nat)
    requires r.Valid() && r.bitBufSize >= 32 && x == Number(r.src) && 0 <= r.Pos() && |r.src| >= zlibLen + 4
      && RowsFit(g, w)
    requires TableFor(table, lits) && |table| == TABLE_SIZE && |lits| == SYMBOLS && Usable(lits)
      && Limited(lits, TABLE_BITS)
    ensures StandsAt(r, x, r.Pos(), TABLE_BITS) && Decoder(g, w, lits, table, zlibLen, |r.src|)
  {
    hide TableFor, Usable, Limited, Number, Buffers;
  }

  lemma NoImage(g: Layout, x: nat, p: nat, zlibLen: nat, lits: seq<nat>, len: nat)
    requires DynamicHeader.ReadHeader(g.c, Upper(x, p)) == Some(DynamicHeader.Sizes(lits, len))
      && Undecodable(lits, g, x, p + len, zlibLen)
    ensures forall out: seq<nat> :: !DecodesBlock(g, x, p, zlibLen, out)
  {
    hide DynamicHeader.ReadHeader, Decodes, Upper;
  }

  lemma GotImage(g: Layout, x: nat, p: nat, zlibLen: nat, lits: seq<nat>, len: nat, m: nat, pl: Place, out: seq<nat>)
    requires DynamicHeader.ReadHeader(g.c, Upper(x, p)) == Some(DynamicHeader.Sizes(lits, len))
      && Reached(lits, g, x, p + len, m, pl) && Ends(lits, g, x, pl, zlibLen)
    requires out == pl.s.out
    ensures DecodesBlock(g, x, p, zlibLen, out)
  {
    hide DynamicHeader.ReadHeader, After, Ends, Upper;
  }

  // A header that is not there, or reaches too far.
  lemma HeaderTooFar(g: Layout, x: nat, p: nat, zlibLen: nat, limit: int)
    requires Lost(DynamicHeader.ReadHeader(g.c, Upper(x, p)), p, limit) && limit >= 8 * zlibLen - 32
    ensures forall out: seq<nat> :: !DecodesBlock(g, x, p, zlibLen, out)
  {
    hide DynamicHeader.ReadHeader, Upper, Symbol, After;
    forall out: seq<nat>
      ensures !DecodesBlock(g, x, p, zlibLen, out)
    {
      if DecodesBlock(g, x, p, zlibLen, out) {
        var h := DynamicHeader.ReadHeader(g.c, Upper(x, p)).value;
        EndNear(h.sizes, g, x, p + h.len, zlibLen, out);
      }
    }
  }

  lemma EndNear(lits: seq<nat>, g: Layout, x: nat, start: nat, zlibLen: nat, out: seq<nat>)
    requires Decodes(lits, g, x, start, zlibLen, out)
    ensures start <= 8 * zlibLen - 32
  {
    hide ReadToken, PlayOne, Upper, Symbol;
    var m: nat, pl: Place :| Reached(lits, g, x, start, m, pl) && Ends(lits, g, x, pl, zlibLen) && out == pl.s.out;
    ReachedBack(lits, g, x, start, m, 0);
  }
}
