// What the decoder takes for granted about runs: that a field it reads has at least one bit, that a run of three-byte
// pixels is a whole number of them, and that every distance is that of one pixel. All of it depends on the stream.
module RunAsserts {
  import opened Options
  import opened PrefixCodes
  import opened Bits
  import opened CanonicalCodes
  import opened Streams
  import opened MatchLengths
  import opened Pixels
  import opened PixelTokens
  import opened Tokenizer
  import opened TokenCoding
  import DynamicHeader
  import Zlib

  // From symbol 265 on the extra bits are read as a field. It is empty just for the last three symbols.
  lemma EmptyField(s: nat)
    requires 257 <= s < SYMBOLS
    ensures s >= 265 && LENGTH_EXTRA[s - 257] == 0 <==> s >= 285
  {
  }

  // A run of three-byte pixels is a whole number of them just if the reader of one symbol at a time accepts it.
  lemma WholePixels(sizes: seq<nat>, y: nat, s: nat)
    requires Symbol(sizes, y) == Some(s) && 257 <= s < SYMBOLS
    ensures s < |sizes| && (RunBytes(s, y, sizes[s]) % 3 == 0 <==> ReadToken(sizes, 3, true, y).Some?)
  {
    hide Lower, Upper, Symbol, LENGTH_RANGE, LENGTH_EXTRA;
  }

  lemma NoBytesWhen(s: nat)
    requires 257 <= s < SYMBOLS
    ensures LENGTH_RANGE[s - 257] == 0 <==> s >= 286
  {
  }

  // The run has no bytes just if the symbol is 286 or 287.
  lemma RunOfNothing(sizes: seq<nat>, c: nat, y: nat, s: nat)
    requires Symbol(sizes, y) == Some(s) && 257 <= s < SYMBOLS && Channels(c)
    ensures s < |sizes| && (ReadToken(sizes, c, true, y) == Some(Read(Run(0), sizes[s] + LENGTH_EXTRA[s - 257] + 1))
      <==> s >= 286)
  {
    NoBytesWhen(s);
    EmptyField(s);
    hide Upper, Symbol, LENGTH_RANGE, LENGTH_EXTRA;
    if s >= 286 { assert Lower(Upper(y, sizes[s]), 0) == 0; } else { LongEnough(s); }
  }

  lemma LongEnough(s: nat)
    requires 257 <= s < 286
    ensures LENGTH_RANGE[s - 257] >= 3
  {
  }

  // Four channels, first row: then one pixel is written.
  lemma NothingIsOnePixel(g: Layout, s: Play)
    requires g.c == 4 && s.started && |s.prev| == 0
    ensures PlayOne(g, s, Run(0)) == Some(PutPixel(g, s, s.delta))
  {
  }

  // --- instances ---------------------------------------------------------------------------------

  // Codes of one bit for the literal 0 and the symbol s.
  function TwoCodes(s: nat): seq<nat>
    requires 0 < s < SYMBOLS
  {
    seq(SYMBOLS, i => if i == 0 || i == s then 1 else 0)
  }

  lemma {:induction false} CountTwo(s: nat, n: nat, k: nat)
    requires 0 < s < SYMBOLS && n <= SYMBOLS && k > 0
    ensures CanonicalCodes.Count(TwoCodes(s)[..n], k) == if k > 1 || n == 0 then 0 else if n <= s then 1 else 2
  {
    if n > 0 {
      CountTwo(s, n - 1, k);
      assert TwoCodes(s)[..n][..n - 1] == TwoCodes(s)[..n - 1];
      assert TwoCodes(s)[..n][n - 1] == if n - 1 == 0 || n - 1 == s then 1 else 0;
    }
  }

  // The code is complete, and the bit 1 is the code of s.
  lemma FirstBitIs(s: nat)
    requires 0 < s < SYMBOLS
    ensures Complete(TwoCodes(s), 1) && Symbol(TwoCodes(s), 1) == Some(s) && TwoCodes(s)[s] == 1
  {
    var sizes := TwoCodes(s);
    assert sizes[..SYMBOLS] == sizes;
    CountTwo(s, SYMBOLS, 1);
    CountTwo(s, s, 1);
    assert Space(sizes, 1, 1) == 2 by { assert Space(sizes, 0, 1) == 0; }
    assert Fits(sizes, 1);
    assert CodeOf(sizes, s) == 1;
    assert Rev(1, 1) == 1 && Lower(1, 1) == 1;
    SymbolIs(sizes, 1, s);
  }

  lemma FourBytes()
    ensures RunBytes(258, 1, 1) == 4
  {
    assert Lower(Upper(1, 1), 0) == 0;
  }

  // The stream 1 is a run of no bytes in the code for 286, and a run of four bytes in the code for 258, which is no
  // whole number of three-byte pixels.
  lemma OneBitRuns()
    ensures ReadToken(TwoCodes(286), 4, true, 1) == Some(Read(Run(0), 2))
    ensures RunBytes(258, 1, 1) == 4 && ReadToken(TwoCodes(258), 3, true, 1) == None
  {
    hide ReadToken, RunBytes, TwoCodes, Symbol, Complete;
    FirstBitIs(286);
    FirstBitIs(258);
    EmptyField(286);
    RunOfNothing(TwoCodes(286), 4, 1, 286);
    FourBytes();
    WholePixels(TwoCodes(258), 1, 258);
  }

  // --- distances ---------------------------------------------------------------------------------

  lemma {:induction false} NoOtherUsed(sizes: seq<nat>, k: nat, m: nat)
    requires 1 <= k <= m && Used(sizes, k) == CanonicalCodes.Count(sizes, 1)
    ensures Space(sizes, k, m) == CanonicalCodes.Count(sizes, 1) * Pow2(m - 1)
    decreases k
  {
    if k == 1 {
      assert Space(sizes, 0, m) == 0 && Used(sizes, 0) == 0;
    } else {
      UsedAtLeastOnes(sizes, k - 1);
      assert CanonicalCodes.Count(sizes, k) == 0;
      NoOtherUsed(sizes, k - 1, m);
      NothingTimes(Pow2(m - k));
    }
  }

  lemma NothingTimes(p: nat)
    ensures 0 * p == 0
  {
  }

  lemma {:induction false} UsedAtLeastOnes(sizes: seq<nat>, k: nat)
    requires k >= 1
    ensures Used(sizes, k) >= CanonicalCodes.Count(sizes, 1)
  {
    if k > 1 { UsedAtLeastOnes(sizes, k - 1); }
  }

  lemma WholePrefixFree(sizes: seq<nat>)
    requires Zlib.Whole(sizes)
    ensures PrefixFree(sizes)
  {
    hide CanonicalCodes.Count, Used, Space, Pow2;
    if !Complete(sizes, 15) {
      NoOtherUsed(sizes, 15, 15);
      HalfSpace();
    }
    assert Fits(sizes, 15);
  }

  lemma HalfSpace()
    ensures Pow2(14) <= Pow2(15)
  {
  }

  lemma FirstBitCode(dists: seq<nat>, c: nat, z: nat)
    requires DynamicHeader.FirstOneBit(dists, c)
    ensures Matches(dists, z, c - 1) <==> z % 2 == 0
  {
    hide CodeOf;
    assert Rev(0, 1) == 0;
    assert Lower(z, 1) == z % 2 + 2 * Lower(z / 2, 0);
  }

  // The decoder passes over the bit of a distance. Other readers of the stream find the distance of one pixel there just
  // if it is 0.
  lemma SkippedDistance(c: nat, x: nat) returns (t: Zlib.Codes)
    requires Channels(c) && DynamicHeader.ReadHeader(c, x).Some?
    ensures Zlib.Announces(x, t) && t.lits == DynamicHeader.ReadHeader(c, x).value.sizes
    ensures Zlib.Whole(t.dists) ==> forall z: nat :: Symbol(t.dists, z) == Some(c - 1) <==> z % 2 == 0
  {
    hide DynamicHeader.ReadHeader, Zlib.Announces, Zlib.Whole, Matches, PrefixFree, DynamicHeader.FirstOneBit;
    t := DynamicHeader.HeaderMeans(c, x);
    if Zlib.Whole(t.dists) {
      WholePrefixFree(t.dists);
      forall z: nat
        ensures Symbol(t.dists, z) == Some(c - 1) <==> z % 2 == 0
      {
        FirstBitCode(t.dists, c, z);
        if z % 2 == 0 { SymbolIs(t.dists, z, c - 1); }
      }
    }
  }

  // What the decoder makes of a run does not depend on that bit, nor on anything after it.
  lemma RunBlind(c: nat, s: nat, x: nat, y: nat, size: nat)
    requires Channels(c) && 257 <= s < SYMBOLS
    requires var n := size + LENGTH_EXTRA[s - 257]; Lower(x, n) == Lower(y, n)
    ensures ReadRun(c, s, x, size) == ReadRun(c, s, y, size)
  {
    hide Lower, Upper;
    var e := LENGTH_EXTRA[s - 257];
    UpperLower(x, size, e);
    UpperLower(y, size, e);
  }
}
