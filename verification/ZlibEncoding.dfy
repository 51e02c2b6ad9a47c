// What the two-pass encoder writes is a zlib stream of the filtered image.
module ZlibEncoding {
  import opened Sequences
  import opened Options
  import opened PrefixCodes
  import opened Bits
  import opened CanonicalCodes
  import opened Streams
  import opened MatchLengths
  import opened Pixels
  import opened PixelTokens
  import opened TokenBytes
  import opened TokenCoding
  import opened Zlib
  import Tokenizer
  import HeaderWriter

  // --- symbols -------------------------------------------------------------------------------------

  lemma LiteralMeans(dists: seq<nat>, s: nat, x: nat, out: seq<nat>)
    requires s < 256
    ensures Meaning(dists, s, x, out) == Some(Inflated(out + [s], 0))
  {
  }

  lemma LiteralData(lits: seq<nat>, dists: seq<nat>, x: nat, bits: nat, out: seq<nat>, b: nat)
    requires b < 256 < |lits| && Symbol(lits, x) == Some(b) && lits[b] <= bits
      && Data(lits, dists, Upper(x, lits[b]), bits - lits[b], out + [b]).Some?
    ensures var r := Data(lits, dists, Upper(x, lits[b]), bits - lits[b], out + [b]).value;
      Data(lits, dists, x, bits, out) == Some(Inflated(r.out, lits[b] + r.len))
  {
    hide Symbol, Upper, Meaning;
    LiteralMeans(dists, b, Upper(x, lits[b]), out);
  }

  // The first n bytes of v as literals, from byte i on.
  lemma {:induction false} LiteralsData(lits: seq<nat>, dists: seq<nat>, x: nat, bits: nat, out: seq<nat>, v: nat,
      i: nat, n: nat, bytes: seq<nat>)
    requires |lits| == Tokenizer.SYMBOLS && PrefixFree(lits) && (forall j :: i <= j < i + n ==> lits[Byte(v, j)] > 0)
      && Ahead(x, LiteralBits(lits, v, i, n))
    requires |bytes| == n && forall j :: 0 <= j < n ==> bytes[j] == Byte(v, i + j)
    requires var k := |LiteralBits(lits, v, i, n)|; k <= bits && Data(lits, dists, Upper(x, k), bits - k, out + bytes).Some?
    ensures var k := |LiteralBits(lits, v, i, n)|;
      var r := Data(lits, dists, Upper(x, k), bits - k, out + bytes).value;
      Data(lits, dists, x, bits, out) == Some(Inflated(r.out, k + r.len))
    decreases n
  {
    hide Symbol, Upper, Lower, Ahead, CodeBits, Byte, Data, PrefixFree;
    if n == 0 {
      assert out + bytes == out;
      UpperNothing(x);
    } else {
      var b := Byte(v, i);
      var rest := LiteralBits(lits, v, i + 1, n - 1);
      AheadSplit(x, CodeBits(lits, b), rest);
      SymbolAhead(lits, x, b);
      UpperUpper(x, lits[b], |rest|);
      assert out + [b] + bytes[1..] == out + bytes;
      LiteralsData(lits, dists, Upper(x, lits[b]), bits - lits[b], out + [b], v, i + 1, n - 1, bytes[1..]);
      LiteralData(lits, dists, x, bits, out, b);
    }
  }

  lemma UpperNothing(x: nat)
    ensures Upper(x, 0) == x
  {
  }

  // With one-bit codes a zero bit stands for the distance c.
  lemma DistanceMeans(dists: seq<nat>, x: nat, c: nat)
    requires Channels(c) && PrefixFree(dists) && c <= |dists| && dists[c - 1] == 1 && CodeOf(dists, c - 1) == 0
      && Lower(x, 1) == 0
    ensures Symbol(dists, x) == Some(c - 1)
  {
    hide CodeOf, PrefixFree;
    assert Rev(0, 1) == 0;
    assert Matches(dists, x, c - 1);
    SymbolIs(dists, x, c - 1);
  }

  lemma DistanceTables(c: nat)
    requires Channels(c)
    ensures DISTANCE_BASE[c - 1] == c && DISTANCE_BITS[c - 1] == 0
  {
  }

  lemma LengthTables(s: nat)
    requires 257 <= s <= 285
    ensures LENGTH_BASE[s - 257] == LENGTH_RANGE[s - 257] && LENGTH_BITS[s - 257] == LENGTH_EXTRA[s - 257]
  {
    hide *;
    assert LENGTH_RANGE == LENGTH_BASE + [0, 0] by { TablesAre(); }
    assert LENGTH_EXTRA == LENGTH_BITS + [0, 0] by { TablesAre(); }
    TablesLong();
  }

  lemma TablesLong()
    ensures |LENGTH_BASE| == |LENGTH_BITS| == 29
  {
  }

  lemma TablesAre()
    ensures LENGTH_RANGE == LENGTH_BASE + [0, 0] && LENGTH_EXTRA == LENGTH_BITS + [0, 0]
  {
  }

  // The fields of a run.
  lemma RunRead(lits: seq<nat>, dists: seq<nat>, c: nat, x: nat, len: nat)
    requires Channels(c) && |lits| == Tokenizer.SYMBOLS && PrefixFree(lits) && 3 <= len < 258 && lits[LenSymOf(len)] > 0
      && Ahead(x, RunBits(lits, len))
    requires PrefixFree(dists) && c <= |dists| && dists[c - 1] == 1 && CodeOf(dists, c - 1) == 0
    ensures var s, e := LenSymOf(len), LenExtra(len - 3);
      && Symbol(lits, x) == Some(s) && Field(Upper(x, lits[s]), 0, e) == Lower(len - 3, e)
      && Symbol(dists, Upper(Upper(x, lits[s]), e)) == Some(c - 1) && |RunBits(lits, len)| == lits[s] + e + 1
  {
    hide Symbol, Upper, Lower, Ahead, CodeBits, ToBits, CodeOf, PrefixFree, LenExtra, Pow2;
    var s, e := LenSymOf(len), LenExtra(len - 3);
    var low := Lower(len - 3, e);
    LowerUpper(len - 3, e);
    AheadSplit(x, CodeBits(lits, s), ToBits(low, e + 1));
    SymbolAhead(lits, x, s);
    var y := Upper(x, lits[s]);
    PowerUp(e);
    AheadField(y, low, e + 1);
    TopBit(y, low, e);
    UpperNothing(y);
    DistanceMeans(dists, Upper(y, e), c);
  }

  lemma PowerUp(e: nat)
    ensures Pow2(e + 1) == 2 * Pow2(e)
  {
  }

  lemma TopBit(y: nat, low: nat, e: nat)
    requires Lower(y, e + 1) == low < Pow2(e)
    ensures Lower(y, e) == low && Lower(Upper(y, e), 1) == 0
  {
    hide Lower, Upper, Pow2;
    LowerLower(y, e, e + 1);
    LowerId(low, e);
    UpperLower(y, e, 1);
  }

  function LenSymOf(len: nat): (s: nat)
    requires 3 <= len < 258
    ensures 257 <= s <= 285
  {
    LengthBack(len - 3);
    LenSym(len - 3)
  }

  // A run is a copy of bytes a pixel back.
  lemma RunMeans(dists: seq<nat>, c: nat, y: nat, len: nat, out: seq<nat>)
    requires Channels(c) && 3 <= len < 258 && c <= |out| && c <= |dists| && dists[c - 1] == 1
    requires var e := LenExtra(len - 3);
      Field(y, 0, e) == Lower(len - 3, e) && Symbol(dists, Upper(y, e)) == Some(c - 1)
    ensures Meaning(dists, LenSymOf(len), y, out) == Some(Inflated(Copy(out, c, len), LenExtra(len - 3) + 1))
  {
    hide Symbol, Upper, Lower, LenExtra, LenSym, LENGTH_BASE, LENGTH_BITS, LENGTH_RANGE, LENGTH_EXTRA, DISTANCE_BASE,
      DISTANCE_BITS, Copy;
    LengthBack(len - 3);
    LengthTables(LenSymOf(len));
    DistanceTables(c);
    NoField(y, LenExtra(len - 3) + 1);
  }

  lemma NoField(x: nat, p: nat)
    ensures Field(x, p, 0) == 0
  {
  }

  lemma RunData(lits: seq<nat>, dists: seq<nat>, c: nat, x: nat, bits: nat, out: seq<nat>, len: nat)
    requires Channels(c) && |lits| == Tokenizer.SYMBOLS && PrefixFree(lits) && 3 <= len < 258 && lits[LenSymOf(len)] > 0
      && Ahead(x, RunBits(lits, len)) && c <= |out|
    requires PrefixFree(dists) && c <= |dists| && dists[c - 1] == 1 && CodeOf(dists, c - 1) == 0
    requires var k := |RunBits(lits, len)|; k <= bits && Data(lits, dists, Upper(x, k), bits - k, Copy(out, c, len)).Some?
    ensures var k := |RunBits(lits, len)|;
      var r := Data(lits, dists, Upper(x, k), bits - k, Copy(out, c, len)).value;
      Data(lits, dists, x, bits, out) == Some(Inflated(r.out, k + r.len))
  {
    hide Symbol, Upper, Lower, Ahead, CodeOf, PrefixFree, LenExtra, LenSymOf, RunBits, Meaning, Copy;
    RunRead(lits, dists, c, x, len);
    RunMeans(dists, c, Upper(x, lits[LenSymOf(len)]), len, out);
  }

  // --- tokens --------------------------------------------------------------------------------------

  // The codes of a block whose tokens are spelled with distance c.
  ghost predicate Pair(lits: seq<nat>, dists: seq<nat>, c: nat) {
    && Channels(c) && |lits| == Tokenizer.SYMBOLS && PrefixFree(lits) && PrefixFree(dists)
    && c <= |dists| && dists[c - 1] == 1 && CodeOf(dists, c - 1) == 0
  }

  lemma TokenData(lits: seq<nat>, dists: seq<nat>, c: nat, x: nat, bits: nat, out: seq<nat>, tok: Token)
    requires Pair(lits, dists, c) && Codable(lits, c, tok) && Ahead(x, TokenBits(lits, c, tok))
      && Spelled(c, out, tok).Some?
    requires var k := |TokenBits(lits, c, tok)|;
      k <= bits && Data(lits, dists, Upper(x, k), bits - k, Spelled(c, out, tok).value).Some?
    ensures var k := |TokenBits(lits, c, tok)|;
      var r := Data(lits, dists, Upper(x, k), bits - k, Spelled(c, out, tok).value).value;
      Data(lits, dists, x, bits, out) == Some(Inflated(r.out, k + r.len))
  {
    hide Upper, Ahead, CodeOf, PrefixFree, RunBits, LiteralBits, CodeBits, Data, Copy, Byte, LenSym;
    match tok
    case Filter(f) =>
      assert Tokenizer.Uses(tok, c, f) > 0;
      SymbolAhead(lits, x, f);
      LiteralData(lits, dists, x, bits, out, f);
    case Pixel(v) =>
      forall j | 0 <= j < c ensures lits[Byte(v, j)] > 0 { LiteralUsed(v, c, j); }
      LiteralsData(lits, dists, x, bits, out, v, 0, c, PixelBytes(c, v));
    case Run(k) =>
      RunFits(c, k);
      RunCoded(lits, c, k);
      RunData(lits, dists, c, x, bits, out, Px(k, c));
  }

  lemma RunFits(c: nat, k: nat)
    requires Channels(c) && 1 <= k <= MaxRun(c)
    ensures 3 <= Px(k, c) < 258
  {
  }

  lemma RunCoded(lits: seq<nat>, c: nat, k: nat)
    requires Codable(lits, c, Run(k)) && 3 <= Px(k, c) < 258
    ensures lits[LenSymOf(Px(k, c))] > 0
  {
    hide LenSym;
    assert Tokenizer.Uses(Run(k), c, LenSymOf(Px(k, c))) > 0;
  }

  // All tokens of a block.
  lemma {:induction false} TokensData(lits: seq<nat>, dists: seq<nat>, c: nat, x: nat, bits: nat, ts: seq<Token>)
    requires Pair(lits, dists, c) && (forall i :: 0 <= i < |ts| ==> Codable(lits, c, ts[i]))
      && Ahead(x, AllBits(lits, c, ts)) && Spell(c, ts).Some?
    requires var k := |AllBits(lits, c, ts)|;
      k <= bits && Data(lits, dists, Upper(x, k), bits - k, Spell(c, ts).value).Some?
    ensures var k := |AllBits(lits, c, ts)|;
      var r := Data(lits, dists, Upper(x, k), bits - k, Spell(c, ts).value).value;
      Data(lits, dists, x, bits, []) == Some(Inflated(r.out, k + r.len))
    decreases |ts|
  {
    hide Upper, Ahead, Pair, Data, Codable, TokenBits, Spelled;
    PairSize(lits, dists, c);
    UpperNothing(x);
    if |ts| > 0 {
      var before, tok := ts[..|ts| - 1], ts[|ts| - 1];
      var a, b := AllBits(lits, c, before), TokenBits(lits, c, tok);
      AheadSplit(x, a, b);
      UpperUpper(x, |a|, |b|);
      TokenData(lits, dists, c, Upper(x, |a|), bits - |a|, Spell(c, before).value, tok);
      TokensData(lits, dists, c, x, bits, before);
    }
  }

  lemma PairSize(lits: seq<nat>, dists: seq<nat>, c: nat)
    requires Pair(lits, dists, c)
    ensures |lits| == Tokenizer.SYMBOLS
  {
  }

  // The end of the block.
  lemma EndData(lits: seq<nat>, dists: seq<nat>, x: nat, bits: nat, out: seq<nat>)
    requires |lits| == Tokenizer.SYMBOLS && PrefixFree(lits) && 0 < lits[256] <= bits && Ahead(x, CodeBits(lits, 256))
    ensures Data(lits, dists, x, bits, out) == Some(Inflated(out, lits[256]))
  {
    hide Upper, Ahead, CodeBits, Symbol, PrefixFree, Meaning;
    SymbolAhead(lits, x, 256);
  }
}
