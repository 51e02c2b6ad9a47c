// The two-pass encoder: the filtered image becomes tokens, the tokens a Huffman code, and code and tokens bits.
module PixelEncoder {
  import opened Sequences
  import opened Options
  import opened PrefixCodes
  import opened Bits
  import opened CanonicalCodes
  import opened Streams
  import opened BitWriter
  import opened MatchLengths
  import opened Pixels
  import opened PixelTokens
  import opened TokenBytes
  import opened TokenCoding
  import opened HeaderWriter
  import Adler32
  import DynamicHeader
  import Filters
  import Frequencies
  import HuffmanTables
  import StoredBlocks
  import Tokenizer
  import Zlib

  const SYMBOLS := Tokenizer.SYMBOLS

  // --- from frequencies to counts ----------------------------------------------------------------

  lemma {:induction false} FrequencyAtLeast(ts: seq<Token>, c: nat, sym: nat, i: nat)
    requires i < |ts|
    ensures Tokenizer.Frequency(ts, c, sym) >= Tokenizer.Uses(ts[i], c, sym)
    decreases |ts|
  {
    hide Tokenizer.Uses;
    if i < |ts| - 1 { FrequencyAtLeast(ts[..|ts| - 1], c, sym, i); }
  }

  // No token needs the end of the block or the last two symbols.
  lemma EmittedUses(tok: Token, c: nat)
    requires Channels(c) && Tokenizer.Emitted(tok, c)
    ensures Tokenizer.Uses(tok, c, 286) == Tokenizer.Uses(tok, c, 287) == 0
  {
    if tok.Run? { LengthBack(Px(tok.k, c) - 3); }
    hide LenSym, Byte;
  }

  lemma {:induction false} LastUnused(ts: seq<Token>, c: nat)
    requires Channels(c) && forall i :: 0 <= i < |ts| ==> Tokenizer.Emitted(ts[i], c)
    ensures Tokenizer.Frequency(ts, c, 286) == Tokenizer.Frequency(ts, c, 287) == 0
    decreases |ts|
  {
    hide Tokenizer.Uses, Tokenizer.Emitted;
    if |ts| > 0 {
      LastUnused(ts[..|ts| - 1], c);
      EmittedUses(ts[|ts| - 1], c);
    }
  }

  lemma SumOneLess(s: seq<nat>, i: nat)
    requires i < |s| && s[i] > 0
    ensures Sum(s[i := 1]) <= Sum(s)
  {
    SumSplit(s, i);
    SumSplit(s[i := 1], i);
    assert s[i := 1][..i] == s[..i] && s[i := 1][i + 1..] == s[i + 1..];
  }

  // The counts that go into the code: scaled frequencies, with one end of block.
  ghost predicate CountsFor(counts: seq<nat>, ts: seq<Token>, c: nat) {
    LiteralCounts(counts) && forall i, sym :: 0 <= i < |ts| && 0 <= sym < SYMBOLS && Tokenizer.Uses(ts[i], c, sym) > 0 ==> counts[sym] > 0
  }

  lemma CountsAre(freq: seq<nat>, ts: seq<Token>, c: nat, freq16: seq<nat>)
    requires Channels(c) && Tokenizer.Counted(freq, ts, c) && Frequencies.Scales(freq[256 := 1], freq16)
    ensures CountsFor(freq16[256 := 1], ts, c)
  {
    hide Tokenizer.Frequency, Tokenizer.Uses, Tokenizer.Emitted;
    LastUnused(ts, c);
    var freq' := freq[256 := 1];
    assert freq16[256] > 0;
    Frequencies.UsedBound(freq', |freq'|);
    SumOneLess(freq16, 256);
    assert HuffmanTables.Countable(freq16[256 := 1]) by { hide Sum; }
    forall i, sym | 0 <= i < |ts| && 0 <= sym < SYMBOLS && Tokenizer.Uses(ts[i], c, sym) > 0
      ensures freq16[256 := 1][sym] > 0
    {
      FrequencyAtLeast(ts, c, sym, i);
      assert freq'[sym] > 0;
    }
  }

  // The counts are the scaled frequencies, with one end of block before and after.
  ghost predicate CountsOf(counts: seq<nat>, freq: seq<nat>) {
    |freq| == SYMBOLS && exists freq16 :: Frequencies.Shares(freq[256 := 1], freq16) && |freq16| == SYMBOLS && counts == freq16[256 := 1]
  }

  method ScaleFrequencies(freq: array<nat>, ghost ts: seq<Token>, c: nat) returns (counts: array<nat>)
    requires Channels(c) && Tokenizer.Counted(freq[..], ts, c) && freq.Length == SYMBOLS
    modifies freq
    ensures fresh(counts) && CountsFor(counts[..], ts, c) && CountsOf(counts[..], old(freq[..]))
  {
    hide Tokenizer.Counted, CountsFor, Frequencies.Scales, Frequencies.Shares;
    ghost var f0 := freq[..];
    counts := new nat[SYMBOLS](_ => 0);
    freq[256] := 1;
    assert freq[..] == f0[256 := 1];
    Frequencies.AdjustFrequencies(freq, counts);
    ghost var f1 := counts[..];
    counts[256] := 1;
    assert counts[..] == f1[256 := 1];
    CountsAre(f0, ts, c, f1);
  }

  // --- the tokens --------------------------------------------------------------------------------

  // The code of the literals, for all tokens.
  ghost predicate CodesAll(lits: seq<nat>, codes: seq<nat>, c: nat, ts: seq<Token>) {
    && Channels(c) && |lits| == SYMBOLS && Limited(lits, MAX_CODE) && HuffmanTables.CodesFor(codes, lits, SYMBOLS)
        && lits[END_OF_BLOCK] > 0
    && forall i :: 0 <= i < |ts| ==> Codable(lits, c, ts[i])
  }

  lemma CodesForAll(lits: seq<nat>, codes: seq<nat>, counts: seq<nat>, c: nat, freq: seq<nat>, ts: seq<Token>)
    requires Channels(c) && Tokenizer.Counted(freq, ts, c) && CountsFor(counts, ts, c)
    requires LiteralCode(lits, counts) && HuffmanTables.CodesFor(codes, lits, SYMBOLS)
    ensures CodesAll(lits, codes, c, ts)
  {
    hide Tokenizer.Uses, Tokenizer.Emitted, HuffmanTables.Dense, HuffmanTables.Countable;
    forall i | 0 <= i < |ts|
      ensures Codable(lits, c, ts[i])
    {
      forall sym | 0 <= sym < SYMBOLS && Tokenizer.Uses(ts[i], c,
          sym) > 0 ensures lits[sym] > 0 { assert counts[sym] > 0; }
    }
  }

  lemma SymbolCode(lits: seq<nat>, codes: seq<nat>, s: nat)
    requires |lits| == SYMBOLS && Limited(lits, MAX_CODE) && HuffmanTables.CodesFor(codes, lits, SYMBOLS) && s < SYMBOLS
      && lits[s] > 0
    ensures |codes| == SYMBOLS && lits[s] <= MAX_CODE && codes[s] < Pow2(lits[s])
      && ToBits(codes[s], lits[s]) == CodeBits(lits, s)
  {
    RevBound(CodeOf(lits, s), lits[s]);
  }

  // One symbol.
  method PutSymbol(out: Writer, lits: array<nat>, codes: array<nat>, s: nat)
    requires out.Valid() && out.bitBufSize <= 43 && lits != out.dst && codes != out.dst
      && lits.Length == codes.Length == SYMBOLS
      && s < SYMBOLS
    requires Limited(lits[..], MAX_CODE) && HuffmanTables.CodesFor(codes[..], lits[..], SYMBOLS) && lits[s] > 0
    modifies out
    ensures out.Valid() && out.bits == old(out.bits) + CodeBits(lits[..], s)
      && out.bitBufSize == old(out.bitBufSize) + lits[s]
      && lits[s] <= MAX_CODE
    ensures out.ofs == old(out.ofs)
  {
    hide Pow2, ToBits, CodeBits, HuffmanTables.CodesFor, Limited;
    SymbolCode(lits[..], codes[..], s);
    out.Put(codes[s], lits[s]);
  }

  lemma LiteralsAre(lits: seq<nat>, v: nat)
    requires |lits| == SYMBOLS
    ensures LiteralBits(lits, v, 0, 3) == CodeBits(lits, Byte(v, 0)) + CodeBits(lits, Byte(v, 1)) + CodeBits(lits,
      Byte(v, 2))
    ensures LiteralBits(lits, v, 0, 4) == LiteralBits(lits, v, 0, 3) + CodeBits(lits, Byte(v, 3))
  {
    hide CodeBits, Byte;
    assert LiteralBits(lits, v, 2, 1) == CodeBits(lits, Byte(v, 2)) + LiteralBits(lits, v, 3, 0);
    assert LiteralBits(lits, v, 3, 1) == CodeBits(lits, Byte(v, 3)) + LiteralBits(lits, v, 4, 0);
    assert LiteralBits(lits, v, 2, 2) == CodeBits(lits, Byte(v, 2)) + LiteralBits(lits, v, 3, 1);
  }

  // A pixel. With codes of at most 12 bits the buffer never gets so full that it must be written out before the
  // fourth literal.
  method PutPixelBits(out: Writer, lits: array<nat>, codes: array<nat>, c: nat, v: nat)
    requires out.Valid() && out.bitBufSize <= 7 && lits != out.dst && codes != out.dst
      && lits.Length == codes.Length == SYMBOLS
    requires Limited(lits[..], MAX_CODE) && HuffmanTables.CodesFor(codes[..], lits[..], SYMBOLS)
      && Codable(lits[..], c, Pixel(v))
    modifies out
    ensures out.Valid() && out.bits == old(out.bits) + TokenBits(lits[..], c, Pixel(v)) && out.bitBufSize < 64
  {
    hide CodeBits, LiteralBits, HuffmanTables.CodesFor, Limited, Byte, Codable;
    ghost var ls, bits := lits[..], out.bits;
    PixelCodable(ls, c, v);
    PutSymbol(out, lits, codes, Byte(v, 0));
    PutSymbol(out, lits, codes, Byte(v, 1));
    PutSymbol(out, lits, codes, Byte(v, 2));
    assert out.bitBufSize < 49;
    ThreeTogether(ls, v, bits);
    if c == 4 {
      PutSymbol(out, lits, codes, Byte(v, 3));
      FourTogether(ls, v, bits);
    }
  }

  lemma ThreeTogether(lits: seq<nat>, v: nat, bits: seq<bool>)
    requires |lits| == SYMBOLS
    ensures bits + CodeBits(lits, Byte(v, 0)) + CodeBits(lits, Byte(v, 1)) + CodeBits(lits,
      Byte(v, 2)) == bits + LiteralBits(lits,
      v, 0, 3)
  {
    hide CodeBits, LiteralBits, Byte;
    LiteralsAre(lits, v);
    var a, b, c := CodeBits(lits, Byte(v, 0)), CodeBits(lits, Byte(v, 1)), CodeBits(lits, Byte(v, 2));
    Regroup(bits, a, b);
    Regroup(bits, a + b, c);
  }

  lemma FourTogether(lits: seq<nat>, v: nat, bits: seq<bool>)
    requires |lits| == SYMBOLS
    ensures bits + LiteralBits(lits, v, 0, 3) + CodeBits(lits, Byte(v, 3)) == bits + LiteralBits(lits, v, 0, 4)
  {
    hide CodeBits, LiteralBits, Byte;
    LiteralsAre(lits, v);
    Regroup(bits, LiteralBits(lits, v, 0, 3), CodeBits(lits, Byte(v, 3)));
  }

  lemma PixelCodable(lits: seq<nat>, c: nat, v: nat)
    requires Codable(lits, c, Pixel(v))
    ensures Channels(c) && lits[Byte(v, 0)] > 0 && lits[Byte(v, 1)] > 0 && lits[Byte(v, 2)] > 0
      && (c == 4 ==> lits[Byte(v, 3)] > 0)
  {
    LiteralUsed(v, c, 0);
    LiteralUsed(v, c, 1);
    LiteralUsed(v, c, 2);
    if c == 4 { LiteralUsed(v, c, 3); }
    hide Byte;
  }

  lemma RunCodable(lits: seq<nat>, c: nat, k: nat)
    requires Codable(lits, c, Run(k))
    ensures Channels(c) && 3 <= Px(k, c) < 258 && LenSym(Px(k, c) - 3) < SYMBOLS && lits[LenSym(Px(k, c) - 3)] > 0
    ensures Lower(Px(k, c) - 3, LenExtra(Px(k, c) - 3)) < Pow2(LenExtra(Px(k, c) - 3) + 1)
  {
    var adj := Px(k, c) - 3;
    LengthBack(adj);
    LowerUpper(adj, LenExtra(adj));
    hide LenSym, LenExtra;
    assert Tokenizer.Uses(Run(k), c, LenSym(adj)) > 0;
  }

  // A run: the length symbol, and its extra bits with one more bit for the distance, whose code is 0.
  method PutRunBits(out: Writer, lits: array<nat>, codes: array<nat>, c: nat, k: nat)
    requires out.Valid() && out.bitBufSize <= 7 && lits != out.dst && codes != out.dst
      && lits.Length == codes.Length == SYMBOLS
    requires Limited(lits[..], MAX_CODE) && HuffmanTables.CodesFor(codes[..], lits[..], SYMBOLS)
      && Codable(lits[..], c, Run(k))
    modifies out
    ensures out.Valid() && out.bits == old(out.bits) + TokenBits(lits[..], c, Run(k)) && out.bitBufSize < 64
  {
    hide CodeBits, ToBits, HuffmanTables.CodesFor, Limited, Codable, LenSym, LenExtra, Lower, Pow2;
    ghost var bits := out.bits;
    RunCodable(lits[..], c, k);
    var adj := Px(k, c) - 3;
    PutSymbol(out, lits, codes, LenSym(adj));
    out.Put(Lower(adj, LenExtra(adj)), LenExtra(adj) + 1);
    Regroup(bits, CodeBits(lits[..], LenSym(adj)), ToBits(Lower(adj, LenExtra(adj)), LenExtra(adj) + 1));
  }

  lemma FilterCodable(lits: seq<nat>, c: nat, f: nat)
    requires Codable(lits, c, Filter(f))
    ensures f < SYMBOLS && lits[f] > 0
  {
    assert Tokenizer.Uses(Filter(f), c, f) > 0;
  }

  method PutToken(out: Writer, lits: array<nat>, codes: array<nat>, c: nat, tok: Token)
    requires out.Valid() && out.bitBufSize <= 7 && lits != out.dst && codes != out.dst
      && lits.Length == codes.Length == SYMBOLS
    requires Limited(lits[..], MAX_CODE) && HuffmanTables.CodesFor(codes[..], lits[..], SYMBOLS)
      && Codable(lits[..], c, tok)
    modifies out
    ensures out.Valid() && out.bits == old(out.bits) + TokenBits(lits[..], c, tok) && out.bitBufSize < 64
  {
    hide HuffmanTables.CodesFor, Limited, Codable, CodeBits, LiteralBits, RunBits;
    match tok
    case Filter(f) =>
      FilterCodable(lits[..], c, f);
      PutSymbol(out, lits, codes, f);
    case Pixel(v) =>
      PutPixelBits(out, lits, codes, c, v);
    case Run(k) =>
      PutRunBits(out, lits, codes, c, k);
  }

  lemma TokenNext(lits: seq<nat>, codes: seq<nat>, c: nat, ts: seq<Token>, i: nat)
    requires CodesAll(lits, codes, c, ts) && i < |ts|
    ensures |lits| == SYMBOLS && Limited(lits, MAX_CODE) && HuffmanTables.CodesFor(codes, lits, SYMBOLS)
      && Codable(lits, c, ts[i])
    ensures AllBits(lits, c, ts[..i + 1]) == AllBits(lits, c, ts[..i]) + TokenBits(lits, c, ts[i])
  {
    hide TokenBits, Codable;
    assert ts[..i + 1][..i] == ts[..i];
  }

  lemma {:induction false} BitsRise(lits: seq<nat>, c: nat, ts: seq<Token>, i: nat)
    requires |lits| == SYMBOLS && i <= |ts|
    ensures |AllBits(lits, c, ts[..i])| <= |AllBits(lits, c, ts)|
    decreases |ts| - i
  {
    hide TokenBits;
    if i < |ts| {
      assert ts[..i + 1][..i] == ts[..i];
      BitsRise(lits, c, ts, i + 1);
    } else {
      assert ts[..i] == ts;
    }
  }

  // Where the second pass is: the first i tokens have been written.
  ghost predicate Upto(bits: seq<bool>, start: seq<bool>, lits: seq<nat>, c: nat, ts: seq<Token>, i: nat) {
    |lits| == SYMBOLS && i <= |ts| && bits == start + AllBits(lits, c, ts[..i])
  }

  lemma UptoNext(bits: seq<bool>, start: seq<bool>, lits: seq<nat>, codes: seq<nat>, c: nat, ts: seq<Token>, i: nat)
    requires Upto(bits, start, lits, c, ts, i) && CodesAll(lits, codes, c, ts) && i < |ts|
    ensures |lits| == SYMBOLS && Upto(bits + TokenBits(lits, c, ts[i]), start, lits, c, ts, i + 1)
    ensures |bits + TokenBits(lits, c, ts[i])| <= |start| + |AllBits(lits, c, ts)|
  {
    hide TokenBits, Codable, AllBits;
    TokenNext(lits, codes, c, ts, i);
    Regroup(start, AllBits(lits, c, ts[..i]), TokenBits(lits, c, ts[i]));
    BitsRise(lits, c, ts, i + 1);
  }

  lemma UptoEnds(bits: seq<bool>, start: seq<bool>, lits: seq<nat>, c: nat, ts: seq<Token>)
    requires |lits| == SYMBOLS
    ensures Upto(start, start, lits, c, ts, 0)
    ensures Upto(bits, start, lits, c, ts, |ts|) ==> bits == start + AllBits(lits, c, ts)
  {
    assert ts[..0] == [] && ts[..|ts|] == ts && start + [] == start;
  }

  lemma CodesFacts(lits: seq<nat>, codes: seq<nat>, c: nat, ts: seq<Token>)
    requires CodesAll(lits, codes, c, ts)
    ensures |lits| == |codes| == SYMBOLS && Limited(lits, MAX_CODE) && HuffmanTables.CodesFor(codes, lits, SYMBOLS)
      && lits[END_OF_BLOCK] > 0
  {
  }

  // All tokens, and the end of the block.
  method PutTokens(out: Writer, lits: array<nat>, codes: array<nat>, c: nat, ts: seq<Token>) returns (ok: bool)
    requires out.Valid() && out.bitBufSize <= 7 && lits != out.dst && codes != out.dst
      && CodesAll(lits[..], codes[..], c, ts)
    modifies out, out.dst
    ensures lits.Length == SYMBOLS
    ensures ok ==> out.ofs <= out.dst.Length && Padded(out.dst[..out.ofs],
      old(out.bits) + AllBits(lits[..], c, ts) + CodeBits(lits[..], END_OF_BLOCK))
    ensures !ok ==> 8 * out.dst.Length < |old(out.bits) + AllBits(lits[..], c, ts) + CodeBits(lits[..],
      END_OF_BLOCK)| + 64
  {
    hide CodesAll, TokenBits, AllBits, CodeBits, Upto, Padded;
    ghost var ls, cs, start := lits[..], codes[..], out.bits;
    CodesFacts(ls, cs, c, ts);
    UptoEnds(start, start, ls, c, ts);
    var i := 0;
    while i < |ts|
      invariant 0 <= i <= |ts| && out.Valid() && out.bitBufSize <= 7 && Upto(out.bits, start, ls, c, ts, i)
      invariant lits[..] == ls && codes[..] == cs
    {
      TokenNext(ls, cs, c, ts, i);
      UptoNext(out.bits, start, ls, cs, c, ts, i);
      PutToken(out, lits, codes, c, ts[i]);
      out.Size();
      ok := out.Flush();
      if !ok { return; }
      i := i + 1;
    }
    UptoEnds(out.bits, start, ls, c, ts);
    PutSymbol(out, lits, codes, END_OF_BLOCK);
    ok := out.ForceFlush();
  }

  // --- the image ---------------------------------------------------------------------------------

  // What the encoder has found: the lengths of the literal codes, the header that says them, and the tokens.
  datatype Encoding = Encoding(lits: seq<nat>, header: seq<bool>, ts: seq<Token>)

  // The header of the zlib stream, and the mark of the last block.
  function Prefix(): (r: seq<bool>)
    ensures |r| == 17
  {
    ToBits(0x78, 8) + ToBits(1, 8) + ToBits(1, 1)
  }

  function StreamBits(e: Encoding, c: nat): seq<bool>
    requires |e.lits| == SYMBOLS
  {
    Prefix() + (ToBits(2, 2) + e.header) + AllBits(e.lits, c, e.ts) + CodeBits(e.lits, END_OF_BLOCK)
  }

  // The tokens stand for the image, and the code for the tokens.
  ghost predicate Encodes(e: Encoding, g: Layout, img: seq<nat>) {
    && Channels(g.c) && |e.lits| == SYMBOLS && Usable(e.lits) && Limited(e.lits, MAX_CODE) && e.lits[END_OF_BLOCK] > 0
    && HeaderOf(e.header, e.lits, g.c) && (forall i :: 0 <= i < |e.ts| ==> Codable(e.lits, g.c, e.ts[i]))
    && exists s :: Playing(g, e.ts, s) && s.y == g.h && !s.started && s.out == img
  }

  // To any reader the tokens spell the filtered image, and the header tells the codes.
  ghost predicate Standard(e: Encoding, c: nat, buf: seq<nat>) {
    && Spell(c, e.ts) == Some(buf)
    && exists t :: HeaderWriter.Tells(e.header, t) && t.lits == e.lits && HeaderWriter.Acceptable(t, c)
  }

  // All runs are found, the header is short, and no code for the scaled frequencies is cheaper unless one with a code
  // longer than 12 bits is.
  ghost predicate Frugal(e: Encoding, c: nat) {
    && Greedy(e.ts, c) && (exists t: Zlib.Codes :: t.lits == e.lits && HeaderWriter.Brief(e.header, t))
    && exists freq, counts ::
        && Tokenizer.Counted(freq, e.ts, c) && CountsOf(counts, freq) && LiteralCode(e.lits, counts)
        && HuffmanTables.Thrifty(e.lits, counts, 12)
  }

  // The bytes of an encoding: its bits, filled up to whole bytes, and the checksum of the filtered image.
  ghost predicate Deflated(out: seq<nat>, e: Encoding, c: nat, buf: seq<nat>) {
    && |out| >= 4 && |e.lits| == SYMBOLS && Padded(out[..|out| - 4], StreamBits(e, c))
    && out[|out| - 4..] == StoredBlocks.BigEndian(Adler32.Checksum(buf, 1))
  }

  method PutPrefix(out: Writer)
    requires out.Valid() && out.bits == [] && out.bitBufSize == 0
    modifies out
    ensures out.Valid() && out.bits == Prefix() && out.bitBufSize == 17
  {
    hide ToBits;
    PrefixLimits();
    out.Put(0x78, 8);
    out.Put(1, 8);
    out.Put(1, 1);
    assert [] + ToBits(0x78, 8) == ToBits(0x78, 8);
  }

  lemma PrefixLimits()
    ensures Pow2(8) == 256 && Pow2(1) == 2
  {
    EightBits();
  }

  lemma EncodingFound(lits: seq<nat>, codes: seq<nat>, counts: seq<nat>, header: seq<bool>, ts: seq<Token>, g: Layout,
      img: seq<nat>, freq: seq<nat>, s: Play)
    requires Channels(g.c) && Tokenizer.Tokenized(g, ts, freq, s, img) && CountsFor(counts, ts, g.c)
    requires LiteralCode(lits, counts) && HuffmanTables.CodesFor(codes, lits, SYMBOLS) && HeaderOf(header, lits, g.c)
    ensures CodesAll(lits, codes, g.c, ts) && Encodes(Encoding(lits, header, ts), g, img)
  {
    hide HeaderOf, Playing, Codable, Usable, HuffmanTables.Countable, HuffmanTables.Dense, Tokenizer.Counted;
    CodesForAll(lits, codes, counts, g.c, freq, ts);
    DenseUsable(lits, MAX_CODE, END_OF_BLOCK);
  }

  method NewCounters() returns (freq: array<nat>)
    ensures fresh(freq) && Tokenizer.NoneCounted(freq[..])
  {
    freq := new nat[SYMBOLS](_ => 0);
  }

  // Encodes the filtered image into dst and returns the size, or 0 if there is not enough room. It cannot
  // fail with 13 bytes more than the bits take.
  method EncodeTwoPass(buf: seq<nat>, g: Layout, w: nat, dst: array<nat>, ghost img: seq<nat>)
    returns (n: nat, ghost e: Encoding)
    requires w > 0 && Channels(g.c) && g.d == g.c && g.dbpl == g.sbpl == Px(w, g.c) && Filters.Rows(g.h, g.sbpl, |img|)
    requires Filters.IsFiltered(buf, img, g.sbpl) && Bytes(img) && Bytes(buf)
    modifies dst
    ensures Encodes(e, g, img) && Standard(e, g.c, buf) && Frugal(e, g.c)
    ensures n != 0 ==> n <= dst.Length && Deflated(dst[..n], e, g.c, buf)
    ensures n != 0 ==> StoredBlocks.EndsInChecksum(dst[..n], buf)
    ensures n == 0 ==> 8 * dst.Length < |StreamBits(e, g.c)| + 8 * 13
  {
    hide *;
    var freq := NewCounters();
    ghost var s;
    var ts;
    ts, s := Tokenizer.Tokenize(buf, g, w, freq, img);
    ghost var f := freq[..];
    FoundTokens(g, ts, f, s, img);
    Constants(g.c);
    var counts := ScaleFrequencies(freq, ts, g.c);
    CountsFacts(counts[..], ts, g.c);
    var out := new Writer(dst);
    assert out.dst == dst;
    PutPrefix(out);
    ghost var header, t;
    var ok, lits, codes;
    ok, lits, codes, header, t := StartDynamicBlock(out, counts, g.c);
    EncodingFound(lits[..], codes[..], counts[..], header, ts, g, img, f, s);
    e := Encoding(lits[..], header, ts);
    EncodingGood(e, g.c, buf, t, f, counts[..]);
    StreamIs(e, g.c, codes[..]);
    if !ok { return 0, e; }
    ok := PutTokens(out, lits, codes, g.c, ts);
    if !ok { return 0, e; }
    ghost var bytes := dst[..out.ofs];
    PaddedSize(bytes, StreamBits(e, g.c));
    var adler := Adler32.AdlerScalar(buf, 1);
    n := StoredBlocks.WriteTrailer(adler, dst, out.ofs);
    if n != 0 {
      Trailed(dst[..n], bytes, e, g.c, buf);
      StreamLong(e, g.c);
      StoredBlocks.TrailerIs(dst[..n], bytes, buf);
    }
  }

  lemma EncodingGood(e: Encoding, c: nat, buf: seq<nat>, t: Zlib.Codes, freq: seq<nat>, counts: seq<nat>)
    requires Spell(c, e.ts) == Some(buf) && Greedy(e.ts, c) && HeaderWriter.Tells(e.header, t) && t.lits == e.lits
      && HeaderWriter.Acceptable(t, c) && HeaderWriter.Brief(e.header, t)
    requires Tokenizer.Counted(freq, e.ts, c) && CountsOf(counts, freq) && LiteralCode(e.lits, counts)
      && HuffmanTables.Thrifty(e.lits, counts, 12)
    ensures Standard(e, c, buf) && Frugal(e, c)
  {
    hide HeaderWriter.Tells, HeaderWriter.Acceptable, HeaderWriter.Brief, Tokenizer.Counted, CountsOf, LiteralCode,
      HuffmanTables.Thrifty, Greedy, Spell;
  }

  lemma StreamLong(e: Encoding, c: nat)
    requires |e.lits| == SYMBOLS
    ensures |StreamBits(e, c)| >= 19
  {
    hide AllBits, CodeBits, Prefix;
  }

  lemma Constants(c: nat)
    requires Channels(c)
    ensures (c == 3 || c == 4) && SYMBOLS == DynamicHeader.LIT_SYMBOLS && Adler32.WORD > 1
  {
  }

  lemma FoundTokens(g: Layout, ts: seq<Token>, freq: seq<nat>, s: Play, img: seq<nat>)
    requires Tokenizer.Tokenized(g, ts, freq, s, img)
    ensures Tokenizer.Counted(freq, ts, g.c) && |freq| == SYMBOLS
  {
    hide Playing;
  }

  lemma CountsFacts(counts: seq<nat>, ts: seq<Token>, c: nat)
    requires CountsFor(counts, ts, c)
    ensures LiteralCounts(counts)
  {
  }

  lemma StreamIs(e: Encoding, c: nat, codes: seq<nat>)
    requires CodesAll(e.lits, codes, c, e.ts)
    ensures |e.lits| == SYMBOLS && |Prefix() + (ToBits(2, 2) + e.header)| <= |StreamBits(e, c)|
    ensures StreamBits(e, c) == Prefix() + (ToBits(2, 2) + e.header) + AllBits(e.lits, c, e.ts) + CodeBits(e.lits,
      END_OF_BLOCK)
  {
    hide AllBits, CodeBits, ToBits, Prefix;
  }

  lemma PaddedSize(out: seq<nat>, bits: seq<bool>)
    requires Padded(out, bits)
    ensures |bits| <= 8 * |out| < |bits| + 8
  {
  }

  lemma Trailed(all: seq<nat>, out: seq<nat>, e: Encoding, c: nat, buf: seq<nat>)
    requires |e.lits| == SYMBOLS && Padded(out, StreamBits(e, c))
      && all == out + StoredBlocks.BigEndian(Adler32.Checksum(buf, 1))
    ensures Deflated(all, e, c, buf)
  {
    hide Padded, StreamBits, StoredBlocks.BigEndian, Adler32.Checksum;
    assert all[..|all| - 4] == out;
  }
}
