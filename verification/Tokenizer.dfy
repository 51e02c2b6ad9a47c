// The first pass of the encoder: turns the filtered image into tokens and counts the symbols they need.
module Tokenizer {
  import opened Sequences
  import opened Options
  import opened PrefixCodes
  import opened MatchLengths
  import opened Pixels
  import opened Filters
  import opened PixelTokens
  import opened TokenBytes

  const SYMBOLS := 288

  // Pixels are numbers below this limit.
  function PixelLimit(c: nat): nat { if c == 3 then 16777216 else 4294967296 }

  lemma PixelBound(buf: seq<nat>, ofs: nat, c: nat)
    requires Channels(c) && ofs + c <= |buf| && Bytes(buf)
    ensures ReadPixel(buf, ofs, c) < PixelLimit(c)
  {
  }

  // A token that the encoder makes.
  ghost predicate Emitted(tok: Token, c: nat) {
    match tok
    case Filter(f) => f < 256
    case Pixel(v) => v < PixelLimit(c)
    case Run(k) => 1 <= k <= MaxRun(c)
  }

  function One(b: bool): nat { if b then 1 else 0 }

  // How often a token needs a symbol: literals for filter types and pixels, a length symbol for a run.
  function Uses(tok: Token, c: nat, sym: nat): nat {
    match tok
    case Filter(f) => One(f == sym)
    case Pixel(v) => One(Byte(v, 0) == sym) + One(Byte(v, 1) == sym) + One(Byte(v, 2) == sym) + One(c == 4
        && Byte(v, 3) == sym)
    case Run(k) => if Px(k, c) < 3 then 0 else One(LenSym(Px(k, c) - 3) == sym)
  }

  function Frequency(ts: seq<Token>, c: nat, sym: nat): nat {
    if |ts| == 0 then 0 else Frequency(ts[..|ts| - 1], c, sym) + Uses(ts[|ts| - 1], c, sym)
  }

  // Tokens of the encoder and the frequencies of their symbols.
  ghost predicate Counted(freq: seq<nat>, ts: seq<Token>, c: nat) {
    && |freq| == SYMBOLS
    && (forall sym :: 0 <= sym < SYMBOLS ==> freq[sym] == Frequency(ts, c, sym))
    && (forall i :: 0 <= i < |ts| ==> Emitted(ts[i], c))
  }

  ghost predicate NoneCounted(freq: seq<nat>) {
    |freq| == SYMBOLS && forall sym :: 0 <= sym < SYMBOLS ==> freq[sym] == 0
  }

  function Bump(freq: seq<nat>, sym: nat): seq<nat>
    requires sym < |freq|
  {
    freq[sym := freq[sym] + 1]
  }

  lemma CountedNext(freq: seq<nat>, ts: seq<Token>, c: nat, tok: Token, freq': seq<nat>)
    requires Counted(freq, ts, c) && Emitted(tok, c) && |freq'| == SYMBOLS
    requires forall sym :: 0 <= sym < SYMBOLS ==> freq'[sym] == freq[sym] + Uses(tok, c, sym)
    ensures Counted(freq', ts + [tok], c)
  {
    assert (ts + [tok])[..|ts|] == ts;
    hide Uses, Emitted;
  }

  method Count(freq: array<nat>, sym: nat)
    requires sym < freq.Length
    modifies freq
    ensures freq[..] == Bump(old(freq[..]), sym)
  {
    freq[sym] := freq[sym] + 1;
  }

  method CountFilter(freq: array<nat>, f: nat, ghost ts: seq<Token>, c: nat)
    requires Counted(freq[..], ts, c) && f < 256
    modifies freq
    ensures Counted(freq[..], ts + [Filter(f)], c)
  {
    ghost var before := freq[..];
    Count(freq, f);
    CountedNext(before, ts, c, Filter(f), freq[..]);
  }

  method CountRun(freq: array<nat>, k: nat, ghost ts: seq<Token>, c: nat)
    requires Counted(freq[..], ts, c) && Channels(c) && 1 <= k <= MaxRun(c)
    modifies freq
    ensures Counted(freq[..], ts + [Run(k)], c)
  {
    ghost var before := freq[..];
    LengthBack(Px(k, c) - 3);
    hide LenSym;
    Count(freq, LenSym(Px(k, c) - 3));
    CountedNext(before, ts, c, Run(k), freq[..]);
  }

  method CountPixel(freq: array<nat>, v: nat, ghost ts: seq<Token>, c: nat)
    requires Counted(freq[..], ts, c) && Channels(c) && v < PixelLimit(c)
    modifies freq
    ensures Counted(freq[..], ts + [Pixel(v)], c)
  {
    ghost var f0 := freq[..];
    hide Counted, Byte;
    CountedSize(f0, ts, c);
    Count(freq, Byte(v, 0));
    Count(freq, Byte(v, 1));
    Count(freq, Byte(v, 2));
    if c == 4 { Count(freq, Byte(v, 3)); }
    CountedNext(f0, ts, c, Pixel(v), freq[..]);
  }

  lemma CountedSize(freq: seq<nat>, ts: seq<Token>, c: nat)
    requires Counted(freq, ts, c)
    ensures |freq| == SYMBOLS
  {
  }

  // --- a row -------------------------------------------------------------------------------------------------------

  // The row of the image at position start.
  ghost predicate RowIn(row: seq<nat>, img: seq<nat>, start: nat, bpl: nat) {
    start + bpl <= |img| && row == img[start..start + bpl]
  }

  // A row begins: nothing of it has been written.
  ghost predicate NewRow(s: Play, y: nat, prev: seq<nat>, out: seq<nat>) {
    s == Play(y, false, [], prev, s.delta, out) && (y == 0 <==> |prev| == 0)
  }

  // The filtered row is in buf at base.
  ghost predicate RowAt(buf: seq<nat>, base: nat, row: seq<nat>, prev: seq<nat>) {
    && (|prev| == 0 || |prev| == |row|) && base + 1 + |row| <= |buf| && Bytes(buf) && Bytes(row) && Bytes(prev)
    && forall i :: 0 <= i <= |row| ==> buf[base + i] == FilteredRow(row, prev)[i]
  }

  lemma ReadUnfilter(g: Layout, s: Play, y: nat, row: seq<nat>, prev: seq<nat>, out: seq<nat>, x: nat, buf: seq<nat>,
      base: nat)
    requires Channels(g.c) && g.d == g.c && g.dbpl == |row| && x + g.c <= |row| && InRow(g, s, y, row, prev, out, x)
      && RowAt(buf, base, row, prev)
    ensures base + 1 + x + g.c <= |buf|
    ensures var v := ReadPixel(buf, base + 1 + x, g.c);
      InRow(g, PutPixel(g, s, v), y, row, prev, out, x + g.c) && PutPixel(g, s, v).delta == v
  {
    var v := ReadPixel(buf, base + 1 + x, g.c);
    PixelBytesAre(buf, base + 1 + x, g.c);
    forall i | 0 <= i < g.c
      ensures Byte(v, i) == FilteredRow(row, prev)[1 + x + i]
    {
      assert buf[base + (1 + x + i)] == FilteredRow(row, prev)[1 + x + i];
    }
    hide Byte, ReadPixel, InRow, PutPixel;
    Unfilter(g, s, y, row, prev, out, x, v);
  }

  // A run of k pixels.
  lemma {:induction false} RunUnfilter(g: Layout, s: Play, y: nat, row: seq<nat>, prev: seq<nat>, out: seq<nat>, x: nat,
      buf: seq<nat>, base: nat, k: nat)
    requires Channels(g.c) && g.d == g.c && g.dbpl == |row| && x + Px(k, g.c) <= |row|
      && InRow(g, s, y, row, prev, out, x)
      && RowAt(buf, base, row, prev)
    requires forall j :: 0 <= j < k ==> SamePixel(buf, base + 1 + x + Px(j, g.c), g.c, s.delta)
    ensures InRow(g, PutRun(g, s, k), y, row, prev, out, x + Px(k, g.c)) && PutRun(g, s, k).delta == s.delta
  {
    if k > 0 {
      RunUnfilter(g, s, y, row, prev, out, x, buf, base, k - 1);
      assert SamePixel(buf, base + 1 + x + Px(k - 1, g.c), g.c, s.delta);
      hide InRow, RowAt, PutPixel, ReadPixel;
      ReadUnfilter(g, PutRun(g, s, k - 1), y, row, prev, out, x + Px(k - 1, g.c), buf, base);
    }
  }

  // How many of the next pixels, up to max, are the same as v, the first of which is known to be.
  method RunLength(buf: seq<nat>, ofs: nat, c: nat, v: nat, max: nat) returns (k: nat)
    requires Channels(c) && 1 <= max && ofs + Px(max, c) <= |buf| && SamePixel(buf, ofs, c, v)
    ensures 1 <= k <= max && forall j :: 0 <= j < k ==> SamePixel(buf, ofs + Px(j, c), c, v)
    ensures k < max ==> !SamePixel(buf, ofs + Px(k, c), c, v)
  {
    var matchLen, maxMatchLen := c, Px(max, c);
    var n: int := 1;
    while matchLen < maxMatchLen
      invariant 1 <= n <= max && matchLen == Px(n, c)
      invariant forall j :: 0 <= j < n ==> SamePixel(buf, ofs + Px(j, c), c, v)
    {
      if ReadPixel(buf, ofs + matchLen, c) != v { break; }
      assert SamePixel(buf, ofs + Px(n, c), c, v);
      matchLen := matchLen + c;
      n := n + 1;
    }
    k := n;
  }

  // The state of the first pass in a row: n of its pixels are done.
  ghost predicate RowState(g: Layout, ts: seq<Token>, freq: seq<nat>, s: Play, y: nat, row: seq<nat>, prev: seq<nat>,
      out: seq<nat>,
      n: nat, w: nat) {
    && Channels(g.c) && g.d == g.c && g.dbpl == |row| == Px(w, g.c) && n <= w
    && Playing(g, ts, s) && Counted(freq, ts, g.c) && InRow(g, s, y, row, prev, out, Px(n, g.c))
  }

  lemma PixelDone(g: Layout, ts: seq<Token>, s: Play, y: nat, row: seq<nat>, prev: seq<nat>, out: seq<nat>, n: nat,
      w: nat,
                  buf: seq<nat>, base: nat, v: nat, freq: seq<nat>, freq': seq<nat>)
    requires RowState(g, ts, freq, s, y, row, prev, out, n, w) && RowAt(buf, base, row, prev) && n < w
    requires base + 1 + Px(n, g.c) + g.c <= |buf| && v == ReadPixel(buf, base + 1 + Px(n, g.c), g.c)
      && Counted(freq', ts + [Pixel(v)], g.c)
    ensures RowState(g, ts + [Pixel(v)], freq', PutPixel(g, s, v), y, row, prev, out, n + 1, w)
      && PutPixel(g, s, v).delta == v
  {
    assert s.started;
    ReadUnfilter(g, s, y, row, prev, out, Px(n, g.c), buf, base);
    hide RowAt, InRow, PutPixel, ReadPixel, Counted;
    PlayOn(g, ts, s, Pixel(v));
  }

  lemma RunDone(g: Layout, ts: seq<Token>, s: Play, y: nat, row: seq<nat>, prev: seq<nat>, out: seq<nat>, n: nat,
      w: nat,
                buf: seq<nat>, base: nat, k: nat, freq: seq<nat>, freq': seq<nat>)
    requires RowState(g, ts, freq, s, y, row, prev, out, n, w) && RowAt(buf, base, row, prev) && 1 <= k && n + k <= w
    requires forall j :: 0 <= j < k ==> SamePixel(buf, base + 1 + Px(n, g.c) + Px(j, g.c), g.c, s.delta)
    requires Counted(freq', ts + [Run(k)], g.c)
    ensures RowState(g, ts + [Run(k)], freq', PutRun(g, s, k), y, row, prev, out, n + k, w)
      && PutRun(g, s, k).delta == s.delta
  {
    assert s.started && |s.cur| == Px(n, g.c);
    RunUnfilter(g, s, y, row, prev, out, Px(n, g.c), buf, base, k);
    hide RowAt, InRow, PutRun, SamePixel, Counted;
    PlayOn(g, ts, s, Run(k));
  }

  lemma RowFacts(g: Layout, ts: seq<Token>, freq: seq<nat>, s: Play, y: nat, row: seq<nat>, prev: seq<nat>,
      out: seq<nat>, n: nat,
      w: nat,
                 buf: seq<nat>, base: nat)
    requires RowState(g, ts, freq, s, y, row, prev, out, n, w) && RowAt(buf, base, row, prev)
    ensures Channels(g.c) && base + 1 + Px(w, g.c) <= |buf| && Counted(freq, ts, g.c) && Bytes(buf)
  {
    hide Counted, InRow, Playing, Bytes;
  }

  method FilterOf(buf: seq<nat>, base: nat, ghost row: seq<nat>, ghost prev: seq<nat>) returns (f: nat)
    requires RowAt(buf, base, row, prev)
    ensures f == (if |prev| == 0 then 0 else 2)
  {
    assert buf[base + 0] == FilteredRow(row, prev)[0];
    f := buf[base];
  }

  lemma FilterDone(g: Layout, ts: seq<Token>, freq: seq<nat>, s0: Play, y: nat, row: seq<nat>, prev: seq<nat>,
      out: seq<nat>,
      w: nat, f: nat)
    returns (s: Play)
    requires Channels(g.c) && g.d == g.c && g.dbpl == |row| == Px(w, g.c) && w > 0
    requires Playing(g, ts, s0) && NewRow(s0, y, prev, out) && f == (if y == 0 then 0 else 2)
      && Counted(freq, ts + [Filter(f)], g.c)
    ensures RowState(g, ts + [Filter(f)], freq, s, y, row, prev, out, 0, w)
  {
    s := s0.(started := true, delta := 0);
    PlayOn(g, ts, s0, Filter(f));
    hide Counted, Playing;
    assert row[..0] == [];
  }

  // The next pixel of the row, or the next run.
  method TokenizeNext(buf: seq<nat>, base: nat, g: Layout, w: nat, ts: seq<Token>, freq: array<nat>, n: nat,
      prevLits: nat,
      ghost y: nat, ghost row: seq<nat>, ghost prev: seq<nat>, ghost out: seq<nat>, ghost s: Play)
    returns (ts': seq<Token>, n': nat, ghost s': Play, prevLits': nat)
    requires 1 <= n < w && RowAt(buf, base, row, prev) && RowState(g, ts, freq[..], s, y, row, prev, out, n, w)
      && s.delta == prevLits
    requires Channels(g.c) && base + 1 + Px(w, g.c) <= |buf|
    requires AfterPixel(ts, g.c, buf, base + 1 + Px(n, g.c), prevLits, true)
    modifies freq
    ensures n < n' <= w && RowState(g, ts', freq[..], s', y, row, prev, out, n', w) && s'.delta == prevLits'
    ensures AfterPixel(ts', g.c, buf, base + 1 + Px(n', g.c), prevLits', n' < w)
  {
    hide RowState, RowAt, InRow, Counted, Playing, ReadPixel, PutPixel, PutRun, AfterPixel, Spelling;
    ghost var f0 := freq[..];
    RowFacts(g, ts, f0, s, y, row, prev, out, n, w, buf, base);
    var srcOfs := base + 1 + Px(n, g.c);
    var lits := ReadPixel(buf, srcOfs, g.c);
    if lits == prevLits {
      var max := if MaxRun(g.c) < w - n then MaxRun(g.c) else w - n;
      var k := RunLength(buf, srcOfs, g.c, lits, max);
      CountRun(freq, k, ts, g.c);
      RunDone(g, ts, s, y, row, prev, out, n, w, buf, base, k, f0, freq[..]);
      RunSpelled(ts, g.c, buf, srcOfs, prevLits, k, n + k < w);
      ts', n', s', prevLits' := ts + [Run(k)], n + k, PutRun(g, s, k), prevLits;
    } else {
      PixelBound(buf, srcOfs, g.c);
      CountPixel(freq, lits, ts, g.c);
      PixelDone(g, ts, s, y, row, prev, out, n, w, buf, base, lits, f0, freq[..]);
      AfterFacts(ts, g.c, buf, srcOfs, prevLits, true);
      PixelSpelled(ts, g.c, buf, srcOfs, lits, n + 1 < w);
      ts', n', s', prevLits' := ts + [Pixel(lits)], n + 1, PutPixel(g, s, lits), lits;
    }
  }

  // One row: a filter type, the first pixel, and then pixels and runs.
  method TokenizeRow(buf: seq<nat>, base: nat, g: Layout, w: nat, ts: seq<Token>, freq: array<nat>,
      ghost y: nat, ghost row: seq<nat>, ghost prev: seq<nat>, ghost out: seq<nat>, ghost s0: Play)
    returns (ts': seq<Token>, ghost s': Play)
    requires w > 0 && RowAt(buf, base, row, prev) && Playing(g, ts, s0) && Counted(freq[..], ts, g.c)
    requires Channels(g.c) && g.d == g.c && g.dbpl == |row| == Px(w, g.c)
    requires NewRow(s0, y, prev, out) && Spelling(ts, g.c, buf, base)
    modifies freq
    ensures RowState(g, ts', freq[..], s', y, row, prev, out, w, w)
    ensures Spelling(ts', g.c, buf, base + 1 + Px(w, g.c))
  {
    hide AfterPixel, Spelling, Previous, RowState, RowAt, InRow, Counted, Playing, ReadPixel, PutPixel, PutRun,
      SamePixel;
    var filterLit := FilterOf(buf, base, row, prev);
    CountFilter(freq, filterLit, ts, g.c);
    ghost var f0 := freq[..];
    ghost var s := FilterDone(g, ts, freq[..], s0, y, row, prev, out, w, filterLit);
    FilterHere(buf, base, row, prev, filterLit);
    FilterSpelled(ts, g.c, buf, base);
    ts' := ts + [Filter(filterLit)];
    RowFacts(g, ts', freq[..], s, y, row, prev, out, 0, w, buf, base);
    var prevLits := ReadPixel(buf, base + 1, g.c);
    var n: int := 1;
    PixelBound(buf, base + 1, g.c);
    CountPixel(freq, prevLits, ts', g.c);
    PixelDone(g, ts', s, y, row, prev, out, 0, w, buf, base, prevLits, f0, freq[..]);
    s := PutPixel(g, s, prevLits);
    FirstHere(buf, base + 1, g.c, prevLits);
    PixelSpelled(ts', g.c, buf, base + 1, prevLits, 1 < w);
    ts' := ts' + [Pixel(prevLits)];
    while n < w
      invariant 1 <= n <= w && s.delta == prevLits && RowState(g, ts', freq[..], s, y, row, prev, out, n, w)
      invariant AfterPixel(ts', g.c, buf, base + 1 + Px(n, g.c), prevLits, n < w)
    {
      RowFacts(g, ts', freq[..], s, y, row, prev, out, n, w, buf, base);
      ts', n, s, prevLits := TokenizeNext(buf, base, g, w, ts', freq, n, prevLits, y, row, prev, out, s);
    }
    s' := s;
    AfterFacts(ts', g.c, buf, base + 1 + Px(n, g.c), prevLits, false);
  }

  lemma AfterFacts(ts: seq<Token>, c: nat, buf: seq<nat>, at: nat, v: nat, more: bool)
    requires AfterPixel(ts, c, buf, at, v, more)
    ensures Spelling(ts, c, buf, at) && Previous(ts) == Some(v)
  {
  }

  lemma FilterHere(buf: seq<nat>, base: nat, row: seq<nat>, prev: seq<nat>, f: nat)
    requires RowAt(buf, base, row, prev) && f == (if |prev| == 0 then 0 else 2)
    ensures base < |buf| && buf[base] == f
  {
    assert buf[base + 0] == FilteredRow(row, prev)[0];
  }

  lemma FirstHere(buf: seq<nat>, at: nat, c: nat, v: nat)
    requires Channels(c) && at + c <= |buf| && v == ReadPixel(buf, at, c)
    ensures SamePixel(buf, at, c, v)
  {
  }

  // --- the image ---------------------------------------------------------------------------------------------------

  // From base on, buf holds the filtered rows of the image from position start on.
  ghost predicate RowsAhead(buf: seq<nat>, base: nat, prev: seq<nat>, img: seq<nat>, start: nat, bpl: nat) {
    && bpl > 0 && (|prev| == 0 || |prev| == bpl) && Bytes(prev) && start <= |img|
    && base <= |buf| && buf[base..] == Filtered(prev, img[start..], bpl)
  }

  // The rows before position start of the image have been turned into tokens.
  ghost predicate RowsDone(g: Layout, ts: seq<Token>, freq: seq<nat>, s: Play, buf: seq<nat>, base: nat, img: seq<nat>,
      start: nat,
      prev: seq<nat>, y: nat) {
    && Playing(g, ts, s) && Counted(freq, ts, g.c)
    && start <= |img| && NewRow(s, y, prev, img[..start])
    && RowsAhead(buf, base, prev, img, start, g.sbpl)
  }

  lemma RowHere(buf: seq<nat>, base: nat, img: seq<nat>, start: nat, prev: seq<nat>, bpl: nat, row: seq<nat>)
    requires Bytes(img) && Bytes(buf) && RowsAhead(buf, base, prev, img, start, bpl)
    requires RowIn(row, img, start, bpl)
    ensures RowAt(buf, base, row, prev) && RowsAhead(buf, base + 1 + bpl, row, img, start + bpl, bpl)
  {
    var rest, filtered, more := img[start..], FilteredRow(row, prev), Filtered(row, img[start + bpl..], bpl);
    assert rest[..bpl] == row && rest[bpl..] == img[start + bpl..];
    assert buf[base..] == filtered + more && |filtered| == 1 + bpl;
    hide Filtered, FilteredRow;
    forall i | 0 <= i <= |row|
      ensures buf[base + i] == filtered[i]
    {
      assert buf[base..][i] == (filtered + more)[i];
    }
    assert buf[base + 1 + bpl..] == buf[base..][1 + bpl..] == more;
  }

  lemma RowFinished(g: Layout, ts: seq<Token>, freq: seq<nat>, s: Play, y: nat, row: seq<nat>, prev: seq<nat>,
      img: seq<nat>,
      start: nat, w: nat,
                    buf: seq<nat>, base: nat)
    requires RowIn(row, img, start, |row|) && RowState(g, ts, freq, s, y, row, prev, img[..start], w, w)
    requires |row| == g.sbpl && RowsAhead(buf, base, row, img, start + |row|, g.sbpl)
    ensures RowsDone(g, ts, freq, s, buf, base, img, start + |row|, row, y + 1)
  {
    assert img[..start] + row == img[..start + |row|];
    hide Playing, Counted, RowsAhead;
  }

  lemma RowsBegin(g: Layout, freq: seq<nat>, buf: seq<nat>, img: seq<nat>)
    requires IsFiltered(buf, img, g.sbpl) && NoneCounted(freq)
    ensures RowsDone(g, [], freq, Blank(), buf, 0, img, 0, [], 0)
  {
    assert img[0..] == img && buf[0..] == buf && img[..0] == [];
  }

  lemma RowNext(g: Layout, ts: seq<Token>, freq: seq<nat>, s: Play, buf: seq<nat>, base: nat, img: seq<nat>, start: nat,
      prev: seq<nat>, y: nat, row: seq<nat>)
    requires RowsDone(g, ts, freq, s, buf, base, img, start, prev, y) && Bytes(img) && Bytes(buf)
    requires RowIn(row, img, start, g.sbpl)
    ensures RowAt(buf, base, row, prev) && RowsAhead(buf, base + 1 + g.sbpl, row, img, start + g.sbpl, g.sbpl)
    ensures Playing(g, ts, s) && Counted(freq, ts, g.c) && NewRow(s, y, prev, img[..start])
  {
    hide Playing, Counted, RowsAhead, RowAt, Bytes;
    RowHere(buf, base, img, start, prev, g.sbpl, row);
  }

  lemma RowOf(img: seq<nat>, start: nat, bpl: nat) returns (row: seq<nat>)
    requires start + bpl <= |img|
    ensures |row| == bpl && RowIn(row, img, start, bpl)
  {
    row := img[start..start + bpl];
  }

  // The row at position start of the image.
  method TokenizeRowAt(buf: seq<nat>, base: nat, g: Layout, w: nat, ts: seq<Token>, freq: array<nat>,
      ghost img: seq<nat>, ghost start: nat, ghost prev: seq<nat>, ghost y: nat, ghost s: Play)
    returns (ts': seq<Token>, ghost s': Play, ghost row: seq<nat>)
    requires w > 0 && Channels(g.c) && g.d == g.c && g.dbpl == g.sbpl == Px(w, g.c)
    requires Bytes(img) && Bytes(buf) && start + g.sbpl <= |img|
      && RowsDone(g, ts, freq[..], s, buf, base, img, start, prev, y)
    requires Spelling(ts, g.c, buf, base)
    modifies freq
    ensures RowsDone(g, ts', freq[..], s', buf, base + 1 + g.sbpl, img, start + g.sbpl, row, y + 1)
    ensures Spelling(ts', g.c, buf, base + 1 + g.sbpl)
  {
    hide *;
    ghost var out := img[..start];
    row := RowOf(img, start, g.sbpl);
    RowNext(g, ts, freq[..], s, buf, base, img, start, prev, y, row);
    ts', s' := TokenizeRow(buf, base, g, w, ts, freq, y, row, prev, out, s);
    RowFinished(g, ts', freq[..], s', y, row, prev, img, start, w, buf, base + 1 + g.sbpl);
  }

  // Where the first pass is: row y, at position start of the image.
  ghost predicate AtRow(g: Layout, ts: seq<Token>, freq: seq<nat>, s: Play, buf: seq<nat>, base: int, img: seq<nat>,
      start: int,
      prev: seq<nat>, y: int) {
    && 0 <= y <= g.h && 0 <= base && 0 <= start <= |img| && Rows(g.h - y, g.sbpl, |img| - start)
    && RowsDone(g, ts, freq, s, buf, base, img, start, prev, y)
  }

  // The tokens, whose symbols are counted, play back to the image.
  ghost predicate Tokenized(g: Layout, ts: seq<Token>, freq: seq<nat>, s: Play, img: seq<nat>) {
    Playing(g, ts, s) && Counted(freq, ts, g.c) && s.y == g.h && !s.started && s.out == img
  }

  // All rows.
  method Tokenize(buf: seq<nat>, g: Layout, w: nat, freq: array<nat>, ghost img: seq<nat>)
    returns (ts: seq<Token>, ghost s: Play)
    requires w > 0 && Channels(g.c) && g.d == g.c && g.dbpl == g.sbpl == Px(w, g.c) && Rows(g.h, g.sbpl, |img|)
    requires IsFiltered(buf, img, g.sbpl) && Bytes(img) && Bytes(buf)
    requires NoneCounted(freq[..])
    modifies freq
    ensures Tokenized(g, ts, freq[..], s, img)
    ensures Spell(g.c, ts) == Some(buf) && Greedy(ts, g.c)
  {
    hide *;
    ts, s := [], Blank();
    ghost var prev: seq<nat>, start: int := [], 0;
    var y: int, base: int := 0, 0;
    RowsBegin(g, freq[..], buf, img);
    SpellingStart(g.c, buf);
    assert AtRow(g, ts, freq[..], s, buf, base, img, start, prev, y) by { StartRow(g, freq[..], s, buf, img); }
    while y < g.h
      invariant y <= g.h && 0 <= base && AtRow(g, ts, freq[..], s, buf, base, img, start, prev, y)
      invariant Spelling(ts, g.c, buf, base)
    {
      RowToDo(g, ts, freq[..], s, buf, base, img, start, prev, y);
      ts, s, prev := TokenizeRowAt(buf, base, g, w, ts, freq, img, start, prev, y, s);
      base := base + 1 + g.sbpl;
      start := start + g.sbpl;
      y := y + 1;
      RowIsDone(g, ts, freq[..], s, buf, base, img, start, prev, y);
    }
    AllDone(g, ts, freq[..], s, buf, base, img, start, prev, y);
    AllSpelled(g, ts, freq[..], s, buf, base, img, start, prev, y);
  }

  lemma StartRow(g: Layout, freq: seq<nat>, s: Play, buf: seq<nat>, img: seq<nat>)
    requires RowsDone(g, [], freq, s, buf, 0, img, 0, [], 0) && Rows(g.h, g.sbpl, |img|)
    ensures AtRow(g, [], freq, s, buf, 0, img, 0, [], 0)
  {
    hide RowsDone;
  }

  lemma RowToDo(g: Layout, ts: seq<Token>, freq: seq<nat>, s: Play, buf: seq<nat>, base: int, img: seq<nat>, start: int,
      prev: seq<nat>, y: int)
    requires AtRow(g, ts, freq, s, buf, base, img, start, prev, y) && y < g.h
    ensures 0 <= y && 0 <= base && 0 <= start && start + g.sbpl <= |img|
      && Rows(g.h - (y + 1), g.sbpl, |img| - (start + g.sbpl))
    ensures RowsDone(g, ts, freq, s, buf, base, img, start, prev, y)
  {
    hide RowsDone, Rows;
    RowsStep(g.h - y, g.sbpl, |img| - start);
  }

  lemma RowIsDone(g: Layout, ts: seq<Token>, freq: seq<nat>, s: Play, buf: seq<nat>, base: int, img: seq<nat>,
      start: int,
      prev: seq<nat>, y: int)
    requires 0 <= y <= g.h && 0 <= base && 0 <= start <= |img| && Rows(g.h - y, g.sbpl, |img| - start)
    requires RowsDone(g, ts, freq, s, buf, base, img, start, prev, y)
    ensures AtRow(g, ts, freq, s, buf, base, img, start, prev, y)
  {
    hide RowsDone, Rows;
  }

  lemma AllDone(g: Layout, ts: seq<Token>, freq: seq<nat>, s: Play, buf: seq<nat>, base: int, img: seq<nat>, start: int,
      prev: seq<nat>, y: int)
    requires AtRow(g, ts, freq, s, buf, base, img, start, prev, y) && y == g.h
    ensures Tokenized(g, ts, freq, s, img)
  {
    hide Rows, Playing, Counted, RowsAhead;
    RowsStep(0, g.sbpl, |img| - start);
    assert img[..|img|] == img;
  }

  lemma AllSpelled(g: Layout, ts: seq<Token>, freq: seq<nat>, s: Play, buf: seq<nat>, base: int, img: seq<nat>,
      start: int, prev: seq<nat>, y: int)
    requires AtRow(g, ts, freq, s, buf, base, img, start, prev, y) && y == g.h && 0 <= base
      && Spelling(ts, g.c, buf, base)
    ensures Spell(g.c, ts) == Some(buf) && Greedy(ts, g.c)
  {
    hide Rows, Playing, Counted, Spell, Greedy;
    RowsStep(0, g.sbpl, |img| - start);
    assert img[start..] == [] && |buf[base..]| == 0;
    assert buf[..|buf|] == buf;
  }
}
