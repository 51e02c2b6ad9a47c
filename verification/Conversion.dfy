// The same tokens played with another number of channels give the converted image.
module Conversion {
  import opened PrefixCodes
  import opened Pixels
  import opened Filters
  import opened PixelTokens

  // Tokens written with as many channels as they have are g; h differs from it only in the channels written.
  ghost predicate Layouts(g: Layout, h: Layout, w: nat) {
    && Channels(g.c) && Channels(h.d) && g.d == g.c == h.c && w > 0
    && g.sbpl == g.dbpl == h.sbpl == Px(w, g.c) && h.dbpl == Px(w, h.d) && g.h == h.h
  }

  // n pixels in both.
  ghost predicate Converted(a: seq<nat>, b: seq<nat>, c: nat, d: nat, n: nat) {
    Channels(c) && Channels(d) && |a| == Px(n, c) && |b| == Px(n, d) && b == Convert(a, c, d)
  }

  // The two plays, where rows are w pixels wide, n pixels of the current row and m pixels of complete rows are there.
  ghost predicate Similar(g: Layout, h: Layout, s: Play, t: Play, n: nat, m: nat, w: nat) {
    && Layouts(g, h, w) && s.y == t.y && s.started == t.started && s.delta == t.delta && n < w
    && Converted(s.cur, t.cur, g.c, h.d, n) && Converted(s.out, t.out, g.c, h.d, m)
    && (|s.prev| == 0 <==> |t.prev| == 0) && (|s.prev| > 0 ==> Converted(s.prev, t.prev, g.c, h.d, w))
  }

  lemma ConvertedConcat(a: seq<nat>, b: seq<nat>, a': seq<nat>, b': seq<nat>, c: nat, d: nat, n: nat, n': nat)
    requires Converted(a, b, c, d, n) && Converted(a', b', c, d, n')
    ensures Converted(a + a', b + b', c, d, n + n')
  {
    ConvertConcat(a, a', c, d, n);
  }

  lemma ConvertedPixel(p: seq<nat>, d: nat)
    requires Channels(|p|) && Channels(d)
    ensures Converted(p, ConvertPixel(p, d), |p|, d, 1)
  {
    assert p[..|p|] == p && p[|p|..] == [];
    assert Convert([], |p|, d) == [];
    assert ConvertPixel(p, d) + [] == ConvertPixel(p, d);
  }

  // Colours stay, and so does alpha.
  lemma {:induction false} ConvertedAt(a: seq<nat>, b: seq<nat>, c: nat, d: nat, n: nat, k: nat, i: nat)
    requires Converted(a, b, c, d, n) && k < n && i < c && i < d
    ensures b[Px(k, d) + i] == a[Px(k, c) + i]
    decreases n
  {
    hide *;
    FirstConverted(a, b, c, d, n);
    if k > 0 {
      PixelInside(k, n, c);
      PixelInside(k, n, d);
      ConvertedAt(a[c..], b[d..], c, d, n - 1, k - 1, i);
      assert b[Px(k, d) + i] == b[d..][Px(k - 1, d) + i];
    } else {
      FirstPixel(a, b, c, d, n, i);
    }
  }

  lemma FirstConverted(a: seq<nat>, b: seq<nat>, c: nat, d: nat, n: nat)
    requires Converted(a, b, c, d, n) && n > 0
    ensures |a| == Px(n, c) && |b| == Px(n, d) && c <= |a| && d <= |b| && Channels(c) && Channels(d)
    ensures b[..d] == ConvertPixel(a[..c], d) && Converted(a[c..], b[d..], c, d, n - 1)
  {
    var rest := Convert(a[c..], c, d);
    assert b == ConvertPixel(a[..c], d) + rest;
    assert b[d..] == rest;
  }

  lemma PixelInside(k: nat, n: nat, c: nat)
    requires 0 < k < n && Channels(c)
    ensures Px(k, c) == c + Px(k - 1, c) && Px(k, c) + c <= Px(n, c)
  {
  }

  lemma FirstPixel(a: seq<nat>, b: seq<nat>, c: nat, d: nat, n: nat, i: nat)
    requires Converted(a, b, c, d, n) && n > 0 && i < c && i < d && c <= |a| && d <= |b|
      && b[..d] == ConvertPixel(a[..c], d)
    ensures Px(0, d) == Px(0, c) == 0 && b[i] == a[i]
  {
    hide Convert;
    assert b[i] == b[..d][i] && a[i] == a[..c][i];
  }

  lemma SameAbove(g: Layout, h: Layout, s: Play, t: Play, n: nat, m: nat, w: nat, i: nat)
    requires Similar(g, h, s, t, n, m, w) && i < g.c && i < h.d
    ensures Above(t.prev, Px(n, h.d) + i) == Above(s.prev, Px(n, g.c) + i)
  {
    hide Convert, PutPixel, PutRun;
    if |s.prev| > 0 { ConvertedAt(s.prev, t.prev, g.c, h.d, w, n, i); }
  }

  lemma SamePixelOut(g: Layout, h: Layout, s: Play, t: Play, n: nat, m: nat, w: nat, v: nat)
    requires Similar(g, h, s, t, n, m, w)
    ensures PixelOut(h, t.prev, |t.cur|, v) == ConvertPixel(PixelOut(g, s.prev, |s.cur|, v), h.d)
  {
    SameAbove(g, h, s, t, n, m, w, 0);
    SameAbove(g, h, s, t, n, m, w, 1);
    SameAbove(g, h, s, t, n, m, w, 2);
    if g.c == 4 && h.d == 4 { SameAbove(g, h, s, t, n, m, w, 3); }
    hide Above, Convert;
  }

  // One pixel; n' and m' say what is there afterwards.
  lemma SimilarPixel(g: Layout, h: Layout, s: Play, t: Play, n: nat, m: nat, w: nat, v: nat) returns (n': nat, m': nat)
    requires Similar(g, h, s, t, n, m, w)
    ensures Similar(g, h, PutPixel(g, s, v), PutPixel(h, t, v), n', m', w)
    ensures n + 1 < w ==> n' == n + 1
  {
    SamePixelOut(g, h, s, t, n, m, w, v);
    PixelJoins(g, h, s, t, n, m, w, PixelOut(g, s.prev, |s.cur|, v), PixelOut(h, t.prev, |t.cur|, v));
    n', m' := if n + 1 < w then n + 1 else 0, if n + 1 < w then m else m + w;
    PixelEnds(g, h, s, t, n, m, w, v, n', m');
  }

  lemma PixelJoins(g: Layout, h: Layout, s: Play, t: Play, n: nat, m: nat, w: nat, p: seq<nat>, q: seq<nat>)
    requires Similar(g, h, s, t, n, m, w) && |p| == g.c && q == ConvertPixel(p, h.d)
    ensures Converted(s.cur + p, t.cur + q, g.c, h.d, n + 1)
    ensures n + 1 == w ==> Converted(s.out + (s.cur + p), t.out + (t.cur + q), g.c, h.d, m + w)
  {
    ConvertedPixel(p, h.d);
    ConvertedConcat(s.cur, t.cur, p, q, g.c, h.d, n, 1);
    hide Convert, ConvertPixel;
    if n + 1 == w { ConvertedConcat(s.out, t.out, s.cur + p, t.cur + q, g.c, h.d, m, w); }
  }

  lemma PixelEnds(g: Layout, h: Layout, s: Play, t: Play, n: nat, m: nat, w: nat, v: nat, n': nat, m': nat)
    requires Similar(g, h, s, t, n, m, w)
    requires var p, q := PixelOut(g, s.prev, |s.cur|, v), PixelOut(h, t.prev, |t.cur|, v);
      && Converted(s.cur + p, t.cur + q, g.c, h.d, n + 1)
      && (n + 1 == w ==> Converted(s.out + (s.cur + p), t.out + (t.cur + q), g.c, h.d, m + w))
    requires n' == (if n + 1 < w then n + 1 else 0) && m' == (if n + 1 < w then m else m + w)
    ensures Similar(g, h, PutPixel(g, s, v), PutPixel(h, t, v), n', m', w)
  {
    hide Convert, PixelOut;
    assert Converted([], [], g.c, h.d, 0) by { NoPixels(g.c, h.d); }
  }

  lemma NoPixels(c: nat, d: nat)
    requires Channels(c) && Channels(d)
    ensures Converted([], [], c, d, 0)
  {
  }

  lemma {:induction false} SimilarRun(g: Layout, h: Layout, s: Play, t: Play, n: nat, m: nat, w: nat, k: nat)
    returns (n': nat, m': nat)
    requires Similar(g, h, s, t, n, m, w) && n + k <= w
    ensures Similar(g, h, PutRun(g, s, k), PutRun(h, t, k), n', m', w)
    ensures n + k < w ==> n' == n + k
    decreases k
  {
    hide Similar, PutPixel;
    if k == 0 {
      n', m' := n, m;
    } else {
      n', m' := SimilarRun(g, h, s, t, n, m, w, k - 1);
      SimilarDelta(g, h, s, t, n, m, w);
      SimilarSmall(g, h, s, t, n, m, w);
      n', m' := SimilarPixel(g, h, PutRun(g, s, k - 1), PutRun(h, t, k - 1), n', m', w, s.delta);
    }
  }

  lemma SimilarDelta(g: Layout, h: Layout, s: Play, t: Play, n: nat, m: nat, w: nat)
    requires Similar(g, h, s, t, n, m, w)
    ensures s.delta == t.delta
  {
  }

  lemma SimilarSmall(g: Layout, h: Layout, s: Play, t: Play, n: nat, m: nat, w: nat)
    requires Similar(g, h, s, t, n, m, w)
    ensures n < w
  {
  }

  lemma SimilarToken(g: Layout, h: Layout, s: Play, t: Play, n: nat, m: nat, w: nat, tok: Token)
    returns (n': nat, m': nat)
    requires Similar(g, h, s, t, n, m, w) && PlayOne(g, s, tok).Some?
    ensures PlayOne(h, t, tok).Some? && Similar(g, h, PlayOne(g, s, tok).value, PlayOne(h, t, tok).value, n', m', w)
  {
    hide PutPixel, PutRun, Converted;
    match tok
    case Filter(f) => n', m' := n, m;
    case Pixel(v) => n', m' := SimilarPixel(g, h, s, t, n, m, w, v);
    case Run(k) =>
      if k == 0 {
        if s.delta == 0 && |s.prev| > 0 { n', m' := n, m; }
            else { n', m' := SimilarPixel(g, h, s, t, n, m, w, s.delta); }
      } else {
        Widths(g, h, s, t, n, m, w, k);
        n', m' := SimilarRun(g, h, s, t, n, m, w, k);
      }
  }

  lemma Widths(g: Layout, h: Layout, s: Play, t: Play, n: nat, m: nat, w: nat, k: nat)
    requires Similar(g, h, s, t, n, m, w)
    ensures |s.cur| + Px(k, g.d) <= g.dbpl <==> n + k <= w
    ensures |t.cur| + Px(k, h.d) <= h.dbpl <==> n + k <= w
  {
  }

  lemma {:induction false} SimilarTokens(g: Layout, h: Layout, ts: seq<Token>, w: nat) returns (t: Play, n: nat, m: nat)
    requires Layouts(g, h, w) && PlayAll(g, ts).Some?
    ensures Playing(h, ts, t) && Similar(g, h, PlayAll(g, ts).value, t, n, m, w)
    decreases |ts|
  {
    if |ts| == 0 {
      t, n, m := Blank(), 0, 0;
      NoPixels(g.c, h.d);
    } else {
      hide Similar, PlayOne, Layouts;
      var k := |ts| - 1;
      t, n, m := SimilarTokens(g, h, ts[..k], w);
      n, m := SimilarToken(g, h, PlayAll(g, ts[..k]).value, t, n, m, w, ts[k]);
      t := PlayOne(h, t, ts[k]).value;
    }
  }

  // What tokens play to with other channels is the conversion of what they play to with their own.
  lemma PlayConverted(g: Layout, h: Layout, ts: seq<Token>, w: nat, s: Play) returns (t: Play)
    requires Layouts(g, h, w) && Playing(g, ts, s)
    ensures Playing(h, ts, t) && t.y == s.y && t.started == s.started
    ensures Channels(g.c) && Channels(h.d) && t.out == Convert(s.out, g.c, h.d)
  {
    hide Convert, PlayOne;
    var n, m;
    t, n, m := SimilarTokens(g, h, ts, w);
  }
}
