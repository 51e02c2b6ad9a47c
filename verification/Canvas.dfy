// Writing decoded pixels below the row above, in place.
module Canvas {
  import opened Sequences
  import opened Pixels
  import opened Filters
  import opened PixelTokens

  ghost predicate RowsFit(g: Layout, w: nat) { Channels(g.c) && Channels(g.d) && w > 0 && g.dbpl == Px(w, g.d) }

  // Bytes, and where alpha is made up, it is opaque.
  ghost predicate Proper(g: Layout, q: seq<nat>) {
    Bytes(q) && (g.c == 3 && g.d == 4 ==> forall i :: 0 <= i < |q| && i % 4 == 3 ==> q[i] == 255)
  }

  // The row above the one at position cur.
  ghost predicate PrevIn(g: Layout, d: seq<nat>, cur: nat, s: Play) {
    && Proper(g, s.prev) && cur <= |d|
    && if s.y == 0 then |s.prev| == 0 else |s.prev| == g.dbpl <= cur && s.prev == d[cur - g.dbpl..cur]
  }

  // Before the row at position cur.
  ghost predicate RowStart(g: Layout, w: nat, d: seq<nat>, cur: nat, s: Play) {
    RowsFit(g, w) && !s.started && |s.cur| == 0 && |s.out| == cur <= |d| && d[..cur] == s.out && PrevIn(g, d, cur, s)
  }

  // In the row at position cur, n pixels of which are there.
  ghost predicate Drawing(g: Layout, w: nat, d: seq<nat>, cur: nat, n: nat, s: Play) {
    && RowsFit(g, w) && n < w && s.started && |s.out| == cur && cur + g.dbpl <= |d| && |s.cur| == Px(n, g.d)
    && d[..cur + Px(n, g.d)] == s.out + s.cur && PrevIn(g, d, cur, s) && Proper(g, s.cur)
  }

  // Somewhere in the row, or at its end, which is before the next row.
  ghost predicate Drawn(g: Layout, w: nat, d: seq<nat>, cur: nat, n: nat, s: Play) {
    RowsFit(g, w) && n <= w && if n < w then Drawing(g, w, d, cur, n, s) else RowStart(g, w, d, cur + g.dbpl, s)
  }

  lemma PixelProper(g: Layout, prev: seq<nat>, n: nat, v: nat, q: seq<nat>)
    requires Channels(g.c) && Channels(g.d) && Proper(g, q) && |q| == Px(n, g.d)
    ensures |PixelOut(g, prev, |q|, v)| == g.d && Proper(g, q + PixelOut(g, prev, |q|, v))
  {
    hide Above, Byte;
  }

  // Writing the bytes of a pixel where they belong.
  lemma PixelDrawn(g: Layout, w: nat, d: seq<nat>, d': seq<nat>, cur: nat, n: nat, s: Play, v: nat)
    requires Drawing(g, w, d, cur, n, s) && |d'| == |d|
    requires var x, p := Px(n, g.d), PixelOut(g, s.prev, Px(n, g.d), v);
      cur + x + |p| <= |d'| && d'[..cur + x + |p|] == d[..cur + x] + p
    ensures Drawn(g, w, d', cur, n + 1, PutPixel(g, s, v)) && PutPixel(g, s, v).delta == v && PutPixel(g, s, v).y
      == if n + 1 < w
      then s.y else s.y + 1
  {
    hide PixelOut, Proper;
    var x, p := Px(n, g.d), PixelOut(g, s.prev, Px(n, g.d), v);
    PixelProper(g, s.prev, n, v, s.cur);
    Regroup(s.out, s.cur, p);
    assert d'[..cur + x + g.d] == s.out + (s.cur + p);
    assert d'[..cur] == d[..cur] by { assert d'[..cur] == d'[..cur + x + g.d][..cur];
      assert d[..cur] == d[..cur + x][..cur]; }
    SamePrev(g, d, d', cur, s);
    if n + 1 == w {
      var row := s.cur + p;
      assert |row| == g.dbpl;
      assert d'[cur..cur + g.dbpl] == d'[..cur + g.dbpl][cur..] == row;
    }
  }

  lemma SamePrev(g: Layout, d: seq<nat>, d': seq<nat>, cur: nat, s: Play)
    requires PrevIn(g, d, cur, s) && cur <= |d'| && d'[..cur] == d[..cur]
    ensures PrevIn(g, d', cur, s)
  {
    hide Proper;
    if s.y != 0 { assert d'[cur - g.dbpl..cur] == d'[..cur][cur - g.dbpl..] == d[..cur][cur - g.dbpl..] == d[cur - g.dbpl..cur]; }
  }

  lemma AboveIs(g: Layout, w: nat, d: seq<nat>, cur: nat, n: nat, s: Play, i: nat)
    requires Drawing(g, w, d, cur, n, s) && i < g.d
    ensures cur + Px(n, g.d) + i < |d|
    ensures s.y == 0 ==> Above(s.prev, Px(n, g.d) + i) == 0
    ensures s.y > 0 ==> cur >= g.dbpl && Above(s.prev, Px(n, g.d) + i) == d[cur - g.dbpl + Px(n, g.d) + i] < 256
    ensures s.y > 0 && i == 3 && g.c == 3 ==> d[cur - g.dbpl + Px(n, g.d) + i] == 255
  {
    if s.y > 0 {
      var o := Px(n, g.d) + i;
      assert s.prev[o] == d[cur - g.dbpl..cur][o];
      assert i == 3 && g.c == 3 ==> o % 4 == 3;
    }
  }

  // What has been written so far of a pixel.
  ghost predicate Partly(d: seq<nat>, before: seq<nat>, pos: nat, p: seq<nat>, i: nat) {
    |d| == |before| && pos + i <= |d| && i <= |p| && d[..pos + i] == before[..pos] + p[..i]
  }

  lemma PartlyNext(d: seq<nat>, before: seq<nat>, pos: nat, p: seq<nat>, i: nat, b: nat)
    requires Partly(d, before, pos, p, i) && i < |p| && pos + i < |d| && b == p[i]
    ensures Partly(d[pos + i := b], before, pos, p, i + 1)
  {
    var d' := d[pos + i := b];
    assert d'[..pos + i + 1] == d[..pos + i] + [b];
    assert before[..pos] + p[..i] + [p[i]] == before[..pos] + p[..i + 1];
  }

  lemma PartlyEnds(d: seq<nat>, pos: nat, p: seq<nat>)
    requires pos <= |d|
    ensures Partly(d, d, pos, p, 0)
    ensures forall d': seq<nat> :: Partly(d', d, pos, p, |p|) ==> pos + |p| <= |d'| && d'[..pos + |p|] == d[..pos] + p
  {
    assert p[..0] == [] && p[..|p|] == p && d[..pos] + [] == d[..pos];
  }

  // Bytes that have not been written yet, and those of the row above, are what they were.
  lemma PartlySame(d: seq<nat>, before: seq<nat>, pos: nat, p: seq<nat>, i: nat, k: nat)
    requires Partly(d, before, pos, p, i) && k < pos
    ensures d[k] == before[k]
  {
    assert d[k] == d[..pos + i][k] && before[k] == before[..pos][k];
  }

  method SetByte(dst: array<nat>, pos: nat, i: nat, b: nat, ghost before: seq<nat>, ghost p: seq<nat>)
    requires Partly(dst[..], before, pos, p, i) && i < |p| && pos + i < dst.Length && b == p[i]
    modifies dst
    ensures Partly(dst[..], before, pos, p, i + 1)
  {
    hide Partly;
    ghost var d := dst[..];
    PartlyNext(d, before, pos, p, i, b);
    dst[pos + i] := b;
    assert dst[..] == d[pos + i := b];
  }

  // One byte of a pixel: the byte above it and the difference.
  method DrawByte(dst: array<nat>, g: Layout, ghost w: nat, cur: nat, x: nat, hasPrev: bool, i: nat, b: nat,
      ghost before: seq<nat>, ghost n: nat, ghost s: Play, ghost v: nat)
    requires Drawing(g, w, before, cur, n, s) && x == Px(n, g.d) && (hasPrev <==> s.y > 0) && i < g.d && b < 256
    requires i < g.c ==> b == Byte(v, i)
    requires Partly(dst[..], before, cur + x, PixelOut(g, s.prev, x, v), i)
    modifies dst
    ensures Partly(dst[..], before, cur + x, PixelOut(g, s.prev, x, v), i + 1)
  {
    hide Drawing, Partly, Byte, Above;
    ghost var p := PixelOut(g, s.prev, x, v);
    OutAt(g, w, before, cur, n, s, v, i);
    AboveIs(g, w, before, cur, n, s, i);
    Sizes(dst[..], before, cur + x, p, i);
    var value := b;
    if i == 3 && g.c == 3 {
      value := 255;
    } else if hasPrev {
      PartlySame(dst[..], before, cur + x, p, i, cur - g.dbpl + x + i);
      assert dst[..][cur - g.dbpl + x + i] == dst[cur - g.dbpl + x + i];
      value := (dst[cur - g.dbpl + x + i] + b) % 256;
    }
    SetByte(dst, cur + x, i, value, before, p);
  }

  lemma Sizes(d: seq<nat>, before: seq<nat>, pos: nat, p: seq<nat>, i: nat)
    requires Partly(d, before, pos, p, i)
    ensures |d| == |before|
  {
  }

  lemma OutAt(g: Layout, w: nat, d: seq<nat>, cur: nat, n: nat, s: Play, v: nat, i: nat)
    requires Drawing(g, w, d, cur, n, s) && i < g.d
    ensures Channels(g.c) && Channels(g.d) && |PixelOut(g, s.prev, Px(n, g.d), v)| == g.d && cur + g.dbpl <= |d|
      && Px(n, g.d) + g.d <= g.dbpl
    ensures PixelOut(g, s.prev, Px(n, g.d), v)[i] == if i == 3 && g.c == 3 then 255
      else Add(Above(s.prev, Px(n, g.d) + i), Byte(v, i))
    ensures s.y > 0 ==> cur >= g.dbpl
  {
    hide Above, Byte, Proper;
  }

  lemma DrawFacts(g: Layout, w: nat, d: seq<nat>, cur: nat, n: nat, s: Play)
    requires Drawing(g, w, d, cur, n, s)
    ensures RowsFit(g, w) && n < w && s.started && cur + Px(n, g.d) + g.d <= |d| && cur + Px(n, g.d) <= |d|
    ensures s.y > 0 ==> cur >= g.dbpl
  {
    hide Proper;
  }

  // A pixel with difference v, the bytes of which are b0, b1, b2 and, with four channels, b3.
  method DrawPixel(dst: array<nat>, g: Layout, w: nat, cur: nat, x: nat, hasPrev: bool, b0: nat, b1: nat, b2: nat,
      b3: nat,
      ghost n: nat, ghost s: Play, ghost v: nat)
    requires Drawing(g, w, dst[..], cur, n, s) && x == Px(n, g.d) && (hasPrev <==> s.y > 0) && b0 < 256 && b1 < 256
      && b2 < 256
      && b3 < 256
    requires b0 == Byte(v, 0) && b1 == Byte(v, 1) && b2 == Byte(v, 2) && (g.c == 4 ==> b3 == Byte(v, 3))
    modifies dst
    ensures Drawn(g, w, dst[..], cur, n + 1, PutPixel(g, s, v)) && PutPixel(g, s, v).delta == v && PutPixel(g, s, v).y
      == if n + 1 < w then s.y else s.y + 1
  {
    hide Drawing, Drawn, Partly, Byte, PixelOut, PutPixel;
    ghost var before, p := dst[..], PixelOut(g, s.prev, x, v);
    DrawFacts(g, w, before, cur, n, s);
    OutAt(g, w, before, cur, n, s, v, 0);
    PartlyEnds(before, cur + x, p);
    DrawByte(dst, g, w, cur, x, hasPrev, 0, b0, before, n, s, v);
    DrawByte(dst, g, w, cur, x, hasPrev, 1, b1, before, n, s, v);
    DrawByte(dst, g, w, cur, x, hasPrev, 2, b2, before, n, s, v);
    if g.d == 4 { DrawByte(dst, g, w, cur, x, hasPrev, 3, b3, before, n, s, v); }
    PixelDrawn(g, w, before, dst[..], cur, n, s, v);
  }

  // A pixel that is the same as the one above: its bytes are copied.
  method CopyPixel(dst: array<nat>, g: Layout, w: nat, cur: nat, x: nat, ghost n: nat, ghost s: Play)
    requires Drawing(g, w, dst[..], cur, n, s) && x == Px(n, g.d) && s.y > 0
    modifies dst
    ensures Drawn(g, w, dst[..], cur, n + 1, PutPixel(g, s, 0)) && PutPixel(g, s, 0).delta == 0 && PutPixel(g, s, 0).y
      == if n + 1 < w then s.y else s.y + 1
  {
    hide Drawing, Drawn, Partly, PixelOut, PutPixel;
    ghost var before, p := dst[..], PixelOut(g, s.prev, x, 0);
    DrawFacts(g, w, before, cur, n, s);
    OutAt(g, w, before, cur, n, s, 0, 0);
    PartlyEnds(before, cur + x, p);
    var i: int := 0;
    while i < g.d
      invariant 0 <= i <= g.d && Partly(dst[..], before, cur + x, p, i)
    {
      CopiedByte(g, w, before, cur, n, s, i);
      PartlySame(dst[..], before, cur + x, p, i, cur - g.dbpl + x + i);
      assert dst[..][cur - g.dbpl + x + i] == dst[cur - g.dbpl + x + i];
      SetByte(dst, cur + x, i, dst[cur - g.dbpl + x + i], before, p);
      i := i + 1;
    }
    PixelDrawn(g, w, before, dst[..], cur, n, s, 0);
  }

  lemma CopiedByte(g: Layout, w: nat, d: seq<nat>, cur: nat, n: nat, s: Play, i: nat)
    requires Drawing(g, w, d, cur, n, s) && i < g.d && s.y > 0
    ensures Channels(g.d) && g.dbpl <= cur && Px(n, g.d) + i < g.dbpl && cur + g.dbpl <= |d|
    ensures |PixelOut(g, s.prev, Px(n, g.d), 0)| == g.d
      && PixelOut(g, s.prev, Px(n, g.d), 0)[i] == d[cur - g.dbpl + Px(n, g.d) + i]
  {
    AboveIs(g, w, d, cur, n, s, i);
    OutAt(g, w, d, cur, n, s, 0, i);
    hide Drawing, PixelOut, Above;
  }
}
