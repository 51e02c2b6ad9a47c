// Tokens as bits, and what a stream of bits says, read one symbol at a time.
module TokenCoding {
  import opened Options
  import opened PrefixCodes
  import opened Bits
  import opened CanonicalCodes
  import opened Streams
  import opened MatchLengths
  import opened Pixels
  import opened PixelTokens
  import opened Tokenizer

  const END_OF_BLOCK := 256

  // --- writing -------------------------------------------------------------------------------------------------------

  // Every symbol the token needs has a code.
  ghost predicate Codable(sizes: seq<nat>, c: nat, tok: Token) {
    && |sizes| == SYMBOLS && Channels(c) && Emitted(tok, c)
    && forall sym :: 0 <= sym < SYMBOLS && Uses(tok, c, sym) > 0 ==> sizes[sym] > 0
  }

  // The first n bytes of a pixel as literals, from the one at i on.
  function LiteralBits(sizes: seq<nat>, v: nat, i: nat, n: nat): seq<bool>
    requires |sizes| == SYMBOLS
    decreases n
  {
    if n == 0 then [] else CodeBits(sizes, Byte(v, i)) + LiteralBits(sizes, v, i + 1, n - 1)
  }

  // A run: the length symbol, its extra bits, and the one bit that every distance takes.
  function RunBits(sizes: seq<nat>, len: nat): seq<bool>
    requires |sizes| == SYMBOLS && 3 <= len < 258
  {
    LengthBack(len - 3);
    CodeBits(sizes, LenSym(len - 3)) + ToBits(Lower(len - 3, LenExtra(len - 3)), LenExtra(len - 3) + 1)
  }

  function TokenBits(sizes: seq<nat>, c: nat, tok: Token): seq<bool>
    requires |sizes| == SYMBOLS
  {
    match tok
    case Filter(f) => if f < SYMBOLS then CodeBits(sizes, f) else []
    case Pixel(v) => LiteralBits(sizes, v, 0, c)
    case Run(k) => if 3 <= Px(k, c) < 258 then RunBits(sizes, Px(k, c)) else []
  }

  function AllBits(sizes: seq<nat>, c: nat, ts: seq<Token>): seq<bool>
    requires |sizes| == SYMBOLS
  {
    if |ts| == 0 then [] else AllBits(sizes, c, ts[..|ts| - 1]) + TokenBits(sizes, c, ts[|ts| - 1])
  }

  // --- reading -------------------------------------------------------------------------------------------------------

  // What was read, and how many bits it took.
  datatype Read = Read(tok: Token, len: nat)
  datatype Literals = Literals(v: nat, len: nat)

  // n literals as the bytes of a number.
  ghost function ReadLiterals(sizes: seq<nat>, x: nat, n: nat): Option<Literals>
    decreases n
  {
    if n == 0 then Some(Literals(0, 0))
    else
      match Symbol(sizes, x)
      case None => None
      case Some(s) =>
        if s >= 256 then None
        else
          match ReadLiterals(sizes, Upper(x, sizes[s]), n - 1)
          case None => None
          case Some(r) => Some(Literals(s + 256 * r.v, sizes[s] + r.len))
  }

  // The bytes of a run: its length symbol s has a code of the given size in the stream x, and extra bits follow.
  function RunBytes(s: nat, x: nat, size: nat): nat
    requires 257 <= s < SYMBOLS
  {
    LENGTH_RANGE[s - 257] + Lower(Upper(x, size), LENGTH_EXTRA[s - 257])
  }

  // The run after the length symbol s.
  function ReadRun(c: nat, s: nat, x: nat, size: nat): Option<Read>
    requires Channels(c)
  {
    if s <= 256 || s >= SYMBOLS then None
    else
      var len := RunBytes(s, x, size);
      if len % c != 0 then None else Some(Read(Run(len / c), size + LENGTH_EXTRA[s - 257] + 1))
  }

  ghost function ReadToken(sizes: seq<nat>, c: nat, started: bool, x: nat): Option<Read>
    requires Channels(c)
  {
    match Symbol(sizes, x)
    case None => None
    case Some(s) =>
      if !started then Some(Read(Filter(s), sizes[s]))
      else if s >= 256 then ReadRun(c, s, x, sizes[s])
      else
        match ReadLiterals(sizes, x, c)
        case None => None
        case Some(r) => Some(Read(Pixel(r.v), r.len))
  }

  // --- reading what was written --------------------------------------------------------------------------------------

  // The number that the n bytes of v from byte i on make up.
  function Tail(v: nat, i: nat, n: nat): nat
    decreases n
  {
    if n == 0 then 0 else Byte(v, i) + 256 * Tail(v, i + 1, n - 1)
  }

  lemma {:induction false} LiteralsBack(sizes: seq<nat>, c: nat, x: nat, v: nat, i: nat, n: nat)
    requires PrefixFree(sizes) && |sizes| == SYMBOLS && forall j :: i <= j < i + n ==> sizes[Byte(v, j)] > 0
    requires Ahead(x, LiteralBits(sizes, v, i, n))
    ensures ReadLiterals(sizes, x, n) == Some(Literals(Tail(v, i, n), |LiteralBits(sizes, v, i, n)|))
    decreases n
  {
    hide Ahead, CodeBits, Byte, Symbol, PrefixFree;
    if n > 0 {
      var b := Byte(v, i);
      AheadSplit(x, CodeBits(sizes, b), LiteralBits(sizes, v, i + 1, n - 1));
      SymbolAhead(sizes, x, b);
      LiteralsBack(sizes, c, Upper(x, sizes[b]), v, i + 1, n - 1);
    }
  }

  lemma WholePixel(v: nat, c: nat)
    requires Channels(c) && v < PixelLimit(c)
    ensures Tail(v, 0, c) == v
  {
    FourBytes(v);
    if c == 4 { TailFour(v); } else { TailThree(v); }
  }

  lemma TailThree(v: nat)
    ensures Tail(v, 0, 3) == Byte(v, 0) + 256 * (Byte(v, 1) + 256 * Byte(v, 2))
  {
    assert Tail(v, 2, 1) == Byte(v, 2) + 256 * Tail(v, 3, 0);
    hide Byte;
  }

  lemma TailFour(v: nat)
    ensures Tail(v, 0, 4) == Byte(v, 0) + 256 * (Byte(v, 1) + 256 * (Byte(v, 2) + 256 * Byte(v, 3)))
  {
    assert Tail(v, 3, 1) == Byte(v, 3) + 256 * Tail(v, 4, 0);
    assert Tail(v, 2, 2) == Byte(v, 2) + 256 * Tail(v, 3, 1);
    hide Byte;
  }

  lemma FourBytes(v: nat)
    requires v < 4294967296
    ensures v == Byte(v, 0) + 256 * (Byte(v, 1) + 256 * (Byte(v, 2) + 256 * Byte(v, 3)))
    ensures v < 16777216 ==> Byte(v, 3) == 0
  {
    DivideTwice(v, 256, 256);
    DivideTwice(v, 65536, 256);
    var a := v / 256;
    var b := a / 256;
    var d := b / 256;
    assert v == v % 256 + 256 * a && a == a % 256 + 256 * b && b == b % 256 + 256 * d;
    assert d < 256;
  }

  lemma RunFields(sizes: seq<nat>, x: nat, s: nat, low: nat, e: nat)
    requires PrefixFree(sizes) && s < |sizes| && sizes[s] > 0 && low < Pow2(e)
      && Ahead(x, CodeBits(sizes, s) + ToBits(low, e + 1))
    ensures Symbol(sizes, x) == Some(s) && Lower(Upper(x, sizes[s]), e) == low
  {
    hide Ahead, CodeBits, Symbol, PrefixFree, Lower, Upper, ToBits;
    AheadSplit(x, CodeBits(sizes, s), ToBits(low, e + 1));
    SymbolAhead(sizes, x, s);
    var y := Upper(x, sizes[s]);
    AheadField(y, low, e + 1);
    LowerLower(y, e, e + 1);
    LowerId(low, e);
  }

  lemma RunBack(sizes: seq<nat>, c: nat, x: nat, k: nat)
    requires PrefixFree(sizes) && Codable(sizes, c, Run(k)) && 3 <= Px(k, c) < 258 && Ahead(x, RunBits(sizes, Px(k, c)))
    ensures ReadToken(sizes, c, true, x) == Some(Read(Run(k), |RunBits(sizes, Px(k, c))|))
  {
    hide Ahead, CodeBits, Symbol, PrefixFree, LenSym, LenExtra, Lower, Upper, ToBits, LENGTH_EXTRA, LENGTH_RANGE;
    var adj := Px(k, c) - 3;
    var s, e := LenSym(adj), LenExtra(adj);
    LengthBack(adj);
    LowerUpper(adj, e);
    assert Uses(Run(k), c, s) > 0;
    RunFields(sizes, x, s, Lower(adj, e), e);
    Multiple(k, c);
  }

  lemma Multiple(k: nat, c: nat)
    requires Channels(c)
    ensures Px(k, c) % c == 0 && Px(k, c) / c == k
  {
  }

  lemma ReadsBack(sizes: seq<nat>, c: nat, x: nat, tok: Token)
    requires PrefixFree(sizes) && Codable(sizes, c, tok) && Ahead(x, TokenBits(sizes, c, tok))
    ensures ReadToken(sizes, c, !tok.Filter?, x) == Some(Read(tok, |TokenBits(sizes, c, tok)|))
  {
    match tok
    case Filter(f) =>
      assert Uses(tok, c, f) > 0;
      SymbolAhead(sizes, x, f);
    case Pixel(v) =>
      forall j | 0 <= j < c ensures sizes[Byte(v, j)] > 0 { LiteralUsed(v, c, j); }
      LiteralsBack(sizes, c, x, v, 0, c);
      WholePixel(v, c);
      AheadSplit(x, CodeBits(sizes, Byte(v, 0)), LiteralBits(sizes, v, 1, c - 1));
      SymbolAhead(sizes, x, Byte(v, 0));
    case Run(k) =>
      RunBack(sizes, c, x, k);
  }

  lemma LiteralUsed(v: nat, c: nat, j: nat)
    requires Channels(c) && j < c
    ensures Uses(Pixel(v), c, Byte(v, j)) > 0
  {
    assert j == 0 || j == 1 || j == 2 || j == 3;
    hide Byte;
  }

  // --- runs of the reader --------------------------------------------------------------------------------------------

  // How far the reader is, and what has been written.
  datatype Place = Place(pos: nat, s: Play)

  ghost function Step(sizes: seq<nat>, g: Layout, x: nat, r: Place): Option<Place>
    requires Channels(g.c)
  {
    if r.s.y >= g.h then None
    else
      match ReadToken(sizes, g.c, r.s.started, Upper(x, r.pos))
      case None => None
      case Some(rd) =>
        match PlayOne(g, r.s, rd.tok)
        case None => None
        case Some(s) => Some(Place(r.pos + rd.len, s))
  }

  // After n tokens of the stream x, from position start on.
  ghost function After(sizes: seq<nat>, g: Layout, x: nat, start: nat, n: nat): Option<Place>
    requires Channels(g.c)
  {
    if n == 0 then Some(Place(start, Blank()))
    else
      match After(sizes, g, x, start, n - 1)
      case None => None
      case Some(r) => Step(sizes, g, x, r)
  }

  // Rows never go back.
  function Progress(s: Play): nat { 2 * s.y + if s.started then 1 else 0 }

  lemma {:induction false} RunProgress(g: Layout, s: Play, k: nat)
    ensures Progress(PutRun(g, s, k)) >= Progress(s)
  {
    if k > 0 { RunProgress(g, s, k - 1); }
  }

  lemma TokenProgress(g: Layout, s: Play, tok: Token)
    requires PlayOne(g, s, tok).Some?
    ensures Progress(PlayOne(g, s, tok).value) >= Progress(s) + if tok.Filter? then 1 else 0
  {
    if tok.Run? { RunProgress(g, s, tok.k); }
  }

  // The bits of tokens that play to the whole image bring the reader there.
  lemma {:induction false} PlaysBack(sizes: seq<nat>, g: Layout, x: nat, start: nat, ts: seq<Token>)
    requires PrefixFree(sizes) && |sizes| == SYMBOLS && Channels(g.c)
    requires forall i :: 0 <= i < |ts| ==> Codable(sizes, g.c, ts[i])
    requires PlayAll(g, ts).Some? && Progress(PlayAll(g, ts).value) <= 2 * g.h
      && Ahead(Upper(x, start), AllBits(sizes, g.c, ts))
    ensures After(sizes, g, x, start, |ts|) == Some(Place(start + |AllBits(sizes, g.c, ts)|, PlayAll(g, ts).value))
    decreases |ts|
  {
    hide Codable, PlayOne, TokenBits, PrefixFree, ReadToken;
    if |ts| > 0 {
      var n := |ts| - 1;
      var before, tok := ts[..n], ts[n];
      var bits := AllBits(sizes, g.c, before);
      var s := PlayAll(g, before).value;
      AheadSplit(Upper(x, start), bits, TokenBits(sizes, g.c, tok));
      UpperUpper(x, start, |bits|);
      TokenProgress(g, s, tok);
      PlaysBack(sizes, g, x, start, before);
      assert After(sizes, g, x, start, n) == Some(Place(start + |bits|, s));
      TokenStep(sizes, g, x, Place(start + |bits|, s), tok);
    }
  }

  lemma TokenStep(sizes: seq<nat>, g: Layout, x: nat, r: Place, tok: Token)
    requires PrefixFree(sizes) && Channels(g.c) && Codable(sizes, g.c, tok) && PlayOne(g, r.s, tok).Some?
    requires Progress(PlayOne(g, r.s, tok).value) <= 2 * g.h && Ahead(Upper(x, r.pos), TokenBits(sizes, g.c, tok))
    ensures Step(sizes, g, x, r) == Some(Place(r.pos + |TokenBits(sizes, g.c, tok)|, PlayOne(g, r.s, tok).value))
  {
    hide Upper, TokenBits, ReadToken, Ahead, PlayOne, Step, PrefixFree, Progress, Emitted, Uses;
    ReadsBack(sizes, g.c, Upper(x, r.pos), tok);
    TokenProgress(g, r.s, tok);
    TokenFits(g, r.s, tok);
    StepReads(sizes, g, x, r, tok, |TokenBits(sizes, g.c, tok)|);
  }

  // Filter types come at the start of a row, everything else after them; there is no token after the last row.
  lemma TokenFits(g: Layout, s: Play, tok: Token)
    requires PlayOne(g, s, tok).Some? && Progress(s) + (if tok.Filter? then 1 else 0) <= 2 * g.h
    ensures (tok.Filter? <==> !s.started) && s.y < g.h
  {
    hide PutRun, PutPixel;
  }

  lemma StepReads(sizes: seq<nat>, g: Layout, x: nat, r: Place, tok: Token, len: nat)
    requires Channels(g.c) && r.s.y < g.h && PlayOne(g, r.s, tok).Some?
    requires ReadToken(sizes, g.c, r.s.started, Upper(x, r.pos)) == Some(Read(tok, len))
    ensures Step(sizes, g, x, r) == Some(Place(r.pos + len, PlayOne(g, r.s, tok).value))
  {
    hide ReadToken, PlayOne, Upper;
  }
}
