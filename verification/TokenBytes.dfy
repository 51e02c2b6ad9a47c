// The bytes that tokens stand for, and the tokens that the encoder prefers.
module TokenBytes {
  import opened Sequences
  import opened Options
  import opened Pixels
  import opened PixelTokens
  import opened Zlib

  function PixelBytes(c: nat, v: nat): seq<nat> {
    [Byte(v, 0), Byte(v, 1), Byte(v, 2)] + if c == 4 then [Byte(v, 3)] else []
  }

  // out and the bytes of one more token: a run is a copy of bytes, each of them the one a pixel before.
  function Spelled(c: nat, out: seq<nat>, tok: Token): Option<seq<nat>> {
    match tok
    case Filter(f) => Some(out + [f])
    case Pixel(v) => Some(out + PixelBytes(c, v))
    case Run(k) => if 1 <= c <= |out| then Some(Copy(out, c, Px(k, c))) else None
  }

  function Spell(c: nat, ts: seq<Token>): Option<seq<nat>> {
    if |ts| == 0 then Some([])
    else
      match Spell(c, ts[..|ts| - 1])
      case None => None
      case Some(out) => Spelled(c, out, ts[|ts| - 1])
  }

  // The pixel that comes last in the row so far, if there is one.
  function Previous(ts: seq<Token>): Option<nat> {
    if |ts| == 0 then None
    else
      match ts[|ts| - 1]
      case Filter(_) => None
      case Pixel(v) => Some(v)
      case Run(_) => Previous(ts[..|ts| - 1])
  }

  // The longest run, in pixels: 255 bytes of three-byte pixels, 252 of four-byte ones.
  function MaxRun(c: nat): nat { if c == 3 then 85 else 63 }

  // A token that repeats the pixel before it is a run, and only one as long as possible is followed by another one.
  ghost predicate Fitting(before: seq<Token>, tok: Token, c: nat) {
    match tok
    case Filter(_) => true
    case Pixel(v) => Previous(before) != Some(v)
    case Run(_) =>
      && Previous(before).Some?
      && (before[|before| - 1].Run? ==> before[|before| - 1].k == if c == 3 then 85 else 63)
  }

  ghost predicate Greedy(ts: seq<Token>, c: nat) {
    |ts| == 0 || (Greedy(ts[..|ts| - 1], c) && Fitting(ts[..|ts| - 1], ts[|ts| - 1], c))
  }

  // The tokens so far spell the first bytes of buf.
  ghost predicate Spelling(ts: seq<Token>, c: nat, buf: seq<nat>, at: nat) {
    at <= |buf| && Spell(c, ts) == Some(buf[..at]) && Greedy(ts, c)
  }

  ghost predicate SamePixel(buf: seq<nat>, ofs: nat, c: nat, v: nat) {
    Channels(c) && ofs + c <= |buf| && ReadPixel(buf, ofs, c) == v
  }

  // In a row, after pixel v. If there is more of the row, a run that ended early was stopped by another pixel.
  ghost predicate AfterPixel(ts: seq<Token>, c: nat, buf: seq<nat>, at: nat, v: nat, more: bool) {
    && Spelling(ts, c, buf, at) && at >= c && SamePixel(buf, at - c, c, v) && Previous(ts) == Some(v)
    && (ts[|ts| - 1].Run? ==> ts[|ts| - 1].k <= MaxRun(c))
    && (more && ts[|ts| - 1].Run? && ts[|ts| - 1].k < MaxRun(c) ==> !SamePixel(buf, at, c, v))
  }

  lemma SpellingStart(c: nat, buf: seq<nat>)
    ensures Spelling([], c, buf, 0)
  {
  }

  lemma OneMore(ts: seq<Token>, tok: Token, c: nat)
    ensures Greedy(ts + [tok], c) <==> Greedy(ts, c) && Fitting(ts, tok, c)
    ensures Spell(c, ts).Some? ==> Spell(c, ts + [tok]) == Spelled(c, Spell(c, ts).value, tok)
    ensures Previous(ts + [tok]) == if tok.Filter? then None else if tok.Pixel? then Some(tok.v) else Previous(ts)
  {
    assert (ts + [tok])[..|ts|] == ts;
    hide Fitting, Spelled;
  }

  lemma FilterSpelled(ts: seq<Token>, c: nat, buf: seq<nat>, at: nat)
    requires Spelling(ts, c, buf, at) && at < |buf|
    ensures Spelling(ts + [Filter(buf[at])], c, buf, at + 1) && Previous(ts + [Filter(buf[at])]) == None
  {
    hide Spell, Greedy, Previous;
    OneMore(ts, Filter(buf[at]), c);
    assert buf[..at + 1] == buf[..at] + [buf[at]];
  }

  lemma PixelIs(c: nat, buf: seq<nat>, at: nat, v: nat)
    requires SamePixel(buf, at, c, v) && Bytes(buf)
    ensures buf[..at + c] == buf[..at] + PixelBytes(c, v) && |PixelBytes(c, v)| == c
  {
    hide Byte, ReadPixel, Bytes;
    PixelBytesAre(buf, at, c);
    forall i | 0 <= i < c
      ensures PixelBytes(c, v)[i] == buf[at + i]
    {
      assert Byte(v, i) == buf[at + i];
    }
  }

  lemma PixelSpelled(ts: seq<Token>, c: nat, buf: seq<nat>, at: nat, v: nat, more: bool)
    requires Spelling(ts, c, buf, at) && Previous(ts) != Some(v) && SamePixel(buf, at, c, v) && Bytes(buf)
    ensures AfterPixel(ts + [Pixel(v)], c, buf, at + c, v, more)
  {
    hide Spell, Greedy, Previous, PixelBytes, SamePixel, Bytes;
    PixelThere(buf, at, c, v);
    PixelIs(c, buf, at, v);
    OneMore(ts, Pixel(v), c);
  }

  lemma {:induction false} CopyIs(out: seq<nat>, dist: nat, len: nat, all: seq<nat>)
    requires 1 <= dist <= |out| && |out| + len <= |all| && out == all[..|out|]
    requires forall j :: |out| <= j < |out| + len ==> all[j] == all[j - dist]
    ensures Copy(out, dist, len) == all[..|out| + len]
    decreases len
  {
    if len > 0 {
      var next := out + [out[|out| - dist]];
      assert next == all[..|out| + 1];
      CopyIs(next, dist, len - 1, all);
    }
  }

  lemma PixelRepeated(buf: seq<nat>, at: nat, c: nat, v: nat)
    requires at >= c && SamePixel(buf, at - c, c, v) && SamePixel(buf, at, c, v) && Bytes(buf)
    ensures forall j :: at <= j < at + c ==> buf[j] == buf[j - c]
  {
    hide Byte, ReadPixel, Bytes;
    PixelBytesAre(buf, at - c, c);
    PixelBytesAre(buf, at, c);
    forall j | at <= j < at + c
      ensures buf[j] == buf[j - c]
    {
      assert Byte(v, j - at) == buf[at + (j - at)] && Byte(v, j - at) == buf[at - c + (j - at)];
    }
  }

  lemma {:induction false} RunRepeated(buf: seq<nat>, at: nat, c: nat, v: nat, k: nat)
    requires at >= c && SamePixel(buf, at - c, c, v) && Bytes(buf)
    requires forall j :: 0 <= j < k ==> SamePixel(buf, at + Px(j, c), c, v)
    ensures at + Px(k, c) <= |buf| && forall j :: at <= j < at + Px(k, c) ==> buf[j] == buf[j - c]
    decreases k
  {
    hide SamePixel, Bytes;
    PixelThere(buf, at - c, c, v);
    if k > 0 {
      RunRepeated(buf, at, c, v, k - 1);
      assert SamePixel(buf, at + Px(k - 1, c), c, v);
      PixelThere(buf, at + Px(k - 1, c), c, v);
      if k > 1 { assert SamePixel(buf, at + Px(k - 2, c), c, v); }
      PixelRepeated(buf, at + Px(k - 1, c), c, v);
    }
  }

  lemma PixelThere(buf: seq<nat>, at: nat, c: nat, v: nat)
    requires SamePixel(buf, at, c, v)
    ensures Channels(c) && at + c <= |buf|
  {
  }

  lemma RunSpelled(ts: seq<Token>, c: nat, buf: seq<nat>, at: nat, v: nat, k: nat, more: bool)
    requires AfterPixel(ts, c, buf, at, v, true) && Bytes(buf) && 0 < k <= MaxRun(c)
    requires forall j :: 0 <= j < k ==> SamePixel(buf, at + Px(j, c), c, v)
    requires more && k < MaxRun(c) ==> !SamePixel(buf, at + Px(k, c), c, v)
    ensures AfterPixel(ts + [Run(k)], c, buf, at + Px(k, c), v, more)
  {
    hide Spell, Greedy, Previous, SamePixel, Bytes, Copy;
    PixelThere(buf, at - c, c, v);
    assert SamePixel(buf, at + Px(0, c), c, v);
    RunRepeated(buf, at, c, v, k);
    LastRepeated(buf, at, c, v, k);
    CopyIs(buf[..at], c, Px(k, c), buf);
    OneMore(ts, Run(k), c);
    NotEmpty(ts);
  }

  lemma LastRepeated(buf: seq<nat>, at: nat, c: nat, v: nat, k: nat)
    requires k > 0 && Channels(c) && forall j :: 0 <= j < k ==> SamePixel(buf, at + Px(j, c), c, v)
    ensures SamePixel(buf, at + Px(k, c) - c, c, v)
  {
    assert SamePixel(buf, at + Px(k - 1, c), c, v);
  }

  lemma NotEmpty(ts: seq<Token>)
    ensures Previous(ts).Some? ==> |ts| > 0
  {
  }
}
