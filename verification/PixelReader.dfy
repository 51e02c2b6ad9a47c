// Reading tokens through the two-symbol table: whatever mixture of first and second halves of entries the symbols
// come from, the tokens are those that a reader of one symbol at a time finds, and no bit is taken that is not
// in the buffer.
module PixelReader {
  import opened Options
  import opened Sequences
  import opened PrefixCodes
  import opened Bits
  import opened CanonicalCodes
  import opened Streams
  import opened TwoSymbolTable
  import opened BitReader
  import opened HeaderReader
  import opened MatchLengths
  import opened Pixels
  import opened PixelTokens
  import opened TokenCoding
  import DecoderTable

  const SYMBOLS := DecoderTable.MAX_SYMBOLS

  // The table, and the code it is for.
  ghost predicate Decoding(table: seq<nat>, lits: seq<nat>) {
    TableFor(table, lits) && |table| == TABLE_SIZE && |lits| == SYMBOLS && Usable(lits) && Limited(lits, TABLE_BITS)
  }

  // The stream y starts with the code of s, which has l bits.
  ghost predicate Next(lits: seq<nat>, y: nat, s: nat, l: nat) {
    Symbol(lits, y) == Some(s) && s < |lits| && 0 < l == lits[s] <= TABLE_BITS
  }

  // What the entry for the stream y says.
  ghost predicate EntryFor(lits: seq<nat>, y: nat, e: nat) {
    && (Len(e) == 0 ==> Symbol(lits, y).None? && Len2(e) == 0)
    && (Len(e) > 0 ==> Next(lits, y, Sym(e), Len(e)))
    && (Len2(e) > 0 ==> Len(e) + Len2(e) <= TABLE_BITS && Sym(e) < 256 && Next(lits, Upper(y, Len(e)), Sym2(e), Len2(e)))
    && Sym(Half2(e)) == Sym2(e) && Len(Half2(e)) == Len2(e) && Len2(Half2(e)) == 0
  }

  lemma NextIs(lits: seq<nat>, y: nat, e: nat, single: seq<nat>)
    requires |lits| == SYMBOLS && Usable(lits) && Limited(lits, TABLE_BITS) && Lookup(lits, single)
      && e == TwoSymbolTable.Peek(single, y)
    ensures Len(e) == 0 ==> Symbol(lits, y).None?
    ensures Len(e) > 0 ==> Next(lits, y, Sym(e), Len(e))
  {
    hide Lower, Matches, Usable;
    DecoderTable.UsableFits(lits);
    LookupStream(lits, single, y);
    if Symbol(lits, y).Some? { MatchSize(lits, y, Symbol(lits, y).value); }
    if Len(e) > 0 {
      MatchSize(lits, y, Sym(e));
      SymbolIs(lits, y, Sym(e));
    }
  }

  lemma HalfFields(e: nat)
    requires Len2(e) == 0 || Half2(e) == Sym2(e) + 512 * Len2(e)
    requires Half2(e) != 0 <==> Len2(e) != 0
    requires Len2(e) < 16
    ensures Sym(Half2(e)) == Sym2(e) && Len(Half2(e)) == Len2(e) && Len2(Half2(e)) == 0
  {
    if Half2(e) != 0 {
      SingleFields(Sym2(e), Len2(e));
    } else {
      assert Sym2(e) == 0 by { DivModIs(0, 512, 0, 0); }
    }
  }

  lemma HalfIs(e: nat, half: nat)
    requires half == Half2(e) && Len2(e) == Len(half) && Sym2(e) == Sym(half) && Single(half)
    ensures Half2(e) == Sym2(e) + 512 * Len2(e) && Len2(e) < 16
  {
  }

  lemma EntryIs(table: seq<nat>, lits: seq<nat>, y: nat)
    requires Decoding(table, lits)
    ensures EntryFor(lits, y, TwoSymbolTable.Peek(table, y))
  {
    var single: seq<nat>, m: nat :| PairedTable(lits, table, single, m);
    hide Usable, Fits, Lookup, Paired, Matches, Lower, Upper, Entry;
    LookupSize(lits, single);
    TwoLookups(lits, table, single, m, y);
    LookupSingle(lits, single);
    var e := TwoSymbolTable.Peek(table, y);
    NextIs(lits, y, TwoSymbolTable.Peek(single, y), single);
    if Len2(e) > 0 {
      var next := Upper(y, Len(e));
      NextIs(lits, next, TwoSymbolTable.Peek(single, next), single);
      PeekSingle(single, next);
      HalfIs(e, TwoSymbolTable.Peek(single, next));
    }
    HalfFields(e);
  }

  lemma PeekSingle(single: seq<nat>, y: nat)
    requires AllSingle(single)
    ensures Single(TwoSymbolTable.Peek(single, y))
  {
    LowerUpper(y, TABLE_BITS);
    TableSizeIs();
  }

  // The entry for the next twelve bits.
  method NextEntry(r: Reader, table: array<nat>, ghost lits: seq<nat>) returns (e: nat)
    requires r.Valid() && r.bitBufSize >= TABLE_BITS && Decoding(table[..], lits)
    ensures EntryFor(lits, Upper(Number(r.src), r.Pos()), e)
  {
    hide Lower, Upper, Number, Usable, Limited, TableFor, EntryFor;
    TableSizeIs();
    EntryIs(table[..], lits, Upper(Number(r.src), r.Pos()));
    var w := r.Peek(TABLE_BITS);
    e := table[w];
  }

  // --- tokens and their symbols ------------------------------------------------------------------

  // There is no token, or it goes on beyond limit.
  ghost predicate LostToken(t: Option<Read>, p: int, limit: int) { t.None? || p + t.value.len > limit }

  lemma NoSymbol(lits: seq<nat>, c: nat, started: bool, y: nat)
    requires Channels(c) && Symbol(lits, y).None?
    ensures ReadToken(lits, c, started, y).None?
  {
    hide Symbol;
  }

  // A token is no shorter than its first symbol.
  lemma FirstSymbol(lits: seq<nat>, c: nat, started: bool, y: nat, s: nat, l: nat)
    requires Channels(c) && Next(lits, y, s, l)
    ensures ReadToken(lits, c, started, y).Some? ==> ReadToken(lits, c, started, y).value.len >= l
    ensures !started ==> ReadToken(lits, c, started, y) == Some(Read(Filter(s), l))
    ensures started && s >= 256 ==> ReadToken(lits, c, started, y) == ReadRun(c, s, y, l)
  {
    hide Symbol, ReadRun;
    assert started && s >= 256 && ReadRun(c, s, y, l).Some?
      ==> ReadRun(c, s, y, l).value.len >= l by { RunLong(c, s, y, l); }
  }

  lemma RunLong(c: nat, s: nat, y: nat, l: nat)
    requires Channels(c)
    ensures ReadRun(c, s, y, l).Some? ==> ReadRun(c, s, y, l).value.len >= l
  {
    hide Lower, Upper;
  }

  ghost function Rest(lits: seq<nat>, y: nat, l: nat, s: nat, n: nat): Option<Literals> {
    match ReadLiterals(lits, Upper(y, l), n)
    case None => None
    case Some(r) => Some(Literals(s + 256 * r.v, l + r.len))
  }

  // One literal after the other.
  lemma LiteralsStep(lits: seq<nat>, y: nat, s: nat, l: nat, n: nat)
    requires Next(lits, y, s, l)
    ensures ReadLiterals(lits, y, n + 1) == if s >= 256 then None else Rest(lits, y, l, s, n)
  {
    hide Symbol, Upper;
  }

  lemma LiteralsEnd(lits: seq<nat>, y: nat, n: nat)
    ensures ReadLiterals(lits, y, 0) == Some(Literals(0, 0))
    ensures Symbol(lits, y).None? ==> ReadLiterals(lits, y, n + 1).None?
  {
    hide Symbol;
  }

  lemma PixelIs(lits: seq<nat>, c: nat, y: nat, s: nat, l: nat)
    requires Channels(c) && Next(lits, y, s, l) && s < 256
    ensures ReadToken(lits, c, true, y) == match ReadLiterals(lits, y,
      c) case None => None case Some(r) => Some(Read(Pixel(r.v), r.len))
  {
    hide Symbol, ReadLiterals;
  }

  // The stream x at position p has these symbols one after the other.
  ghost predicate TwoAt(lits: seq<nat>, x: nat, p: nat, s0: nat, l0: nat, s1: nat, l1: nat) {
    Next(lits, Upper(x, p), s0, l0) && Next(lits, Upper(x, p + l0), s1, l1)
  }

  ghost predicate ThreeAt(lits: seq<nat>, x: nat, p: nat, s0: nat, l0: nat, s1: nat, l1: nat, s2: nat, l2: nat) {
    TwoAt(lits, x, p, s0, l0, s1, l1) && Next(lits, Upper(x, p + l0 + l1), s2, l2)
  }

  // The second symbol is missing.
  lemma SecondMissing(lits: seq<nat>, c: nat, x: nat, p: nat, s0: nat, l0: nat)
    requires Channels(c) && Next(lits, Upper(x, p), s0, l0) && s0 < 256 && Symbol(lits, Upper(x, p + l0)).None?
    ensures ReadToken(lits, c, true, Upper(x, p)).None?
  {
    hide Next, Symbol, Upper, ReadToken, ReadLiterals;
    UpperUpper(x, p, l0);
    PixelIs(lits, c, Upper(x, p), s0, l0);
    LiteralsStep(lits, Upper(x, p), s0, l0, c - 1);
    LiteralsEnd(lits, Upper(x, p + l0), c - 2);
  }

  lemma ThirdMissing(lits: seq<nat>, c: nat, x: nat, p: nat, s0: nat, l0: nat, s1: nat, l1: nat)
    requires Channels(c) && TwoAt(lits, x, p, s0, l0, s1, l1) && s0 < 256 && Symbol(lits, Upper(x, p + l0 + l1)).None?
    ensures ReadToken(lits, c, true, Upper(x, p)).None?
  {
    hide Next, Symbol, Upper, ReadToken, ReadLiterals;
    UpperUpper(x, p, l0);
    UpperUpper(x, p + l0, l1);
    PixelIs(lits, c, Upper(x, p), s0, l0);
    LiteralsStep(lits, Upper(x, p), s0, l0, c - 1);
    LiteralsStep(lits, Upper(x, p + l0), s1, l1, c - 2);
    LiteralsEnd(lits, Upper(x, p + l0 + l1), c - 3);
  }

  // Three literals, after which n more are to come.
  lemma ThreeLiterals(lits: seq<nat>, x: nat, p: nat, s0: nat, l0: nat, s1: nat, l1: nat, s2: nat, l2: nat, n: nat)
    requires ThreeAt(lits, x, p, s0, l0, s1, l1, s2, l2)
    ensures var rest, r := ReadLiterals(lits, Upper(x, p + l0 + l1 + l2), n), ReadLiterals(lits, Upper(x, p), n + 3);
      && (s0 < 256 && s1 < 256 && s2 < 256 && rest.Some? ==>
            r == Some(Literals(s0 + 256 * s1 + 65536 * s2 + 16777216 * rest.value.v, l0 + l1 + l2 + rest.value.len)))
      && (s0 >= 256 || s1 >= 256 || s2 >= 256 || rest.None? ==> r.None?)
  {
    hide Next, Symbol, Upper, ReadLiterals;
    UpperUpper(x, p, l0);
    UpperUpper(x, p + l0, l1);
    UpperUpper(x, p + l0 + l1, l2);
    LiteralsStep(lits, Upper(x, p), s0, l0, n + 2);
    LiteralsStep(lits, Upper(x, p + l0), s1, l1, n + 1);
    LiteralsStep(lits, Upper(x, p + l0 + l1), s2, l2, n);
  }

  // A pixel of three literals.
  lemma PixelThree(lits: seq<nat>, x: nat, p: nat, s0: nat, l0: nat, s1: nat, l1: nat, s2: nat, l2: nat)
    requires ThreeAt(lits, x, p, s0, l0, s1, l1, s2, l2) && s0 < 256
    ensures ReadToken(lits, 3, true, Upper(x, p)) ==
      if s1 < 256 && s2 < 256 then Some(Read(Pixel(s0 + 256 * s1 + 65536 * s2), l0 + l1 + l2)) else None
  {
    hide Next, Symbol, Upper, ReadToken, ReadLiterals;
    PixelIs(lits, 3, Upper(x, p), s0, l0);
    ThreeLiterals(lits, x, p, s0, l0, s1, l1, s2, l2, 0);
    LiteralsEnd(lits, Upper(x, p + l0 + l1 + l2), 0);
  }

  // A pixel of four literals is no shorter than the first three of them.
  lemma PixelFourLong(lits: seq<nat>, x: nat, p: nat, s0: nat, l0: nat, s1: nat, l1: nat, s2: nat, l2: nat, limit: int)
    requires ThreeAt(lits, x, p, s0, l0, s1, l1, s2, l2) && s0 < 256
    ensures p + l0 + l1 + l2 > limit ==> LostToken(ReadToken(lits, 4, true, Upper(x, p)), p, limit)
    ensures Symbol(lits, Upper(x, p + l0 + l1 + l2)).None? ==> ReadToken(lits, 4, true, Upper(x, p)).None?
  {
    hide Next, Symbol, Upper, ReadToken, ReadLiterals;
    PixelIs(lits, 4, Upper(x, p), s0, l0);
    ThreeLiterals(lits, x, p, s0, l0, s1, l1, s2, l2, 1);
    LiteralsEnd(lits, Upper(x, p + l0 + l1 + l2), 0);
  }

  lemma PixelFour(lits: seq<nat>, x: nat, p: nat, s0: nat, l0: nat, s1: nat, l1: nat, s2: nat, l2: nat, s3: nat,
      l3: nat)
    requires ThreeAt(lits, x, p, s0, l0, s1, l1, s2, l2) && s0 < 256 && Next(lits, Upper(x, p + l0 + l1 + l2), s3, l3)
    ensures ReadToken(lits, 4, true, Upper(x, p)) ==
      if s1 < 256 && s2 < 256 && s3 < 256 then Some(Read(Pixel(s0 + 256 * s1 + 65536 * s2 + 16777216 * s3),
          l0 + l1 + l2 + l3))
          else None
  {
    hide Next, Symbol, Upper, ReadToken, ReadLiterals;
    PixelIs(lits, 4, Upper(x, p), s0, l0);
    ThreeLiterals(lits, x, p, s0, l0, s1, l1, s2, l2, 1);
    var q := p + l0 + l1 + l2;
    LiteralsStep(lits, Upper(x, q), s3, l3, 0);
    LiteralsEnd(lits, Upper(Upper(x, q), l3), 0);
  }

  // --- what the entries give ---------------------------------------------------------------------

  // The entry at position p, in terms of positions.
  lemma EntryAt(lits: seq<nat>, x: nat, p: nat, e: nat)
    requires EntryFor(lits, Upper(x, p), e)
    ensures Len(e) == 0 ==> Symbol(lits, Upper(x, p)).None? && Len2(e) == 0
    ensures Len(e) > 0 ==> Next(lits, Upper(x, p), Sym(e), Len(e)) && Len(e) <= TABLE_BITS
    ensures Len2(e) > 0 ==> Len(e) + Len2(e) <= TABLE_BITS && Sym(e) < 256
    ensures Len2(e) > 0 ==> Next(lits, Upper(x, p + Len(e)), Sym2(e), Len2(e))
    ensures Sym(Half2(e)) == Sym2(e) && Len(Half2(e)) == Len2(e) && Len2(Half2(e)) == 0
  {
    hide Symbol, Upper, Sym, Len, Sym2, Len2, Half2;
    UpperUpper(x, p, Len(e));
  }

  // Where the reader is: at position p of the stream, with at least some bits in the buffer.
  ghost predicate StandsAt(r: Reader, x: nat, p: int, bits: int)
    reads r
  {
    r.Valid() && Number(r.src) == x && r.Pos() == p >= 0 && r.bitBufSize >= bits
  }

  // The symbol that a variable stands for, be it an entry or the upper half of one, is at position p; what is above
  // it is the symbol that follows.
  ghost predicate Literal(lits: seq<nat>, x: nat, p: nat, e: nat, l: nat) {
    && Next(lits, Upper(x, p), Sym(e), l) && l == Len(e)
    && (Len2(e) > 0 ==> l + Len2(e) <= TABLE_BITS && Sym(e) < 256 && Next(lits, Upper(x, p + l), Sym2(e), Len2(e)))
    && Sym(Half2(e)) == Sym2(e) && Len(Half2(e)) == Len2(e) && Len2(Half2(e)) == 0
  }

  // The next entry, which is looked up.
  method LookUp(r: Reader, table: array<nat>, ghost lits: seq<nat>, ghost x: nat, ghost p: nat) returns (e: nat, l: nat)
    requires StandsAt(r, x, p, TABLE_BITS) && Decoding(table[..], lits)
    ensures l == 0 ==> Symbol(lits, Upper(x, p)).None?
    ensures l > 0 ==> Literal(lits, x, p, e, l) && l <= TABLE_BITS
  {
    hide Upper, Number, Decoding, EntryFor, Symbol, Next, Sym, Len, Sym2, Len2, Half2;
    e := NextEntry(r, table, lits);
    EntryAt(lits, x, p, e);
    l := Len(e);
  }

  // The upper half of an entry.
  lemma UpperHalf(lits: seq<nat>, x: nat, p: nat, e: nat, l: nat)
    requires Literal(lits, x, p, e, l) && Len2(e) > 0
    ensures Literal(lits, x, p + l, Half2(e), Len2(e)) && l + Len2(e) <= TABLE_BITS
    ensures Next(lits, Upper(x, p + l), Sym2(e), Len2(e)) && Sym(e) < 256
  {
    hide Upper, Symbol, Next, Sym, Len, Sym2, Len2;
    NoQuarter(e);
  }

  lemma NoQuarter(e: nat)
    requires Len2(Half2(e)) == 0
    ensures Sym(Half2(Half2(e))) == Sym2(Half2(e)) && Len(Half2(Half2(e))) == Len2(Half2(e))
      && Len2(Half2(Half2(e))) == 0
  {
  }

  lemma LiteralNext(lits: seq<nat>, x: nat, p: nat, e: nat, l: nat)
    requires Literal(lits, x, p, e, l)
    ensures Next(lits, Upper(x, p), Sym(e), l) && l == Len(e) && 0 < l <= TABLE_BITS
  {
    hide Upper, Symbol;
  }

  // Moves on by bits that are in the buffer.
  method Take(r: Reader, l: nat, ghost x: nat, ghost p: nat, ghost bits: nat)
    requires StandsAt(r, x, p, bits) && l <= bits
    modifies r
    ensures StandsAt(r, x, p + l, bits - l)
  {
    r.SkipNe(l);
  }

  // Moves on and reads ahead.
  method TakeAndRefill(r: Reader, l: nat, ghost x: nat, ghost p: nat, ghost bits: nat) returns (ok: bool)
    requires StandsAt(r, x, p, bits) && l <= bits
    modifies r
    ensures ok ==> StandsAt(r, x, p + l, 32)
    ensures !ok ==> p + l > 8 * |r.src| - 56
  {
    ok := r.Skip(l);
  }

  // The second and the third literal of a pixel: the second comes from the upper half of the first entry or is
  // looked up, and so does the third from that of the second. The third is left in the buffer.
  method SecondAndThird(r: Reader, table: array<nat>, ghost lits: seq<nat>, c: nat, ghost x: nat, ghost p: nat, e0: nat,
      ghost l0: nat)
    returns (ok: bool, s1: nat, e2: nat, l2: nat, ghost l1: nat)
    requires Decoding(table[..], lits) && Channels(c) && StandsAt(r, x, p + l0, 32) && Literal(lits, x, p, e0, l0)
      && Sym(e0) < 256
    modifies r
    ensures ok ==> StandsAt(r, x, p + l0 + l1, TABLE_BITS) && TwoAt(lits, x, p, Sym(e0), l0, s1, l1)
    ensures ok ==> Literal(lits, x, p + l0 + l1, e2, l2)
    ensures !ok ==> ReadToken(lits, c, true, Upper(x, p)).None?
  {
    hide Upper, Number, Decoding, Symbol, Next, StandsAt, Literal, ReadToken, Sym, Len, Sym2, Len2, Half2;
    s1, e2, l2, l1 := 0, 0, 0, 0;
    LiteralNext(lits, x, p, e0, l0);
    var spec := Len2(e0);
    if spec != 0 {
      UpperHalf(lits, x, p, e0, l0);
      s1, l1 := Sym2(e0), spec;
      Take(r, spec, x, p + l0, 32);
      Enough(r, x, p + l0 + l1, 32 - spec);
      e2, l2 := LookUp(r, table, lits, x, p + l0 + l1);
    } else {
      Enough(r, x, p + l0, 32);
      var e1, l;
      e1, l := LookUp(r, table, lits, x, p + l0);
      if l == 0 {
        SecondMissing(lits, c, x, p, Sym(e0), l0);
        return false, s1, e2, l2, l1;
      }
      LiteralNext(lits, x, p + l0, e1, l);
      s1, l1 := Sym(e1), l;
      Take(r, l, x, p + l0, 32);
      Enough(r, x, p + l0 + l1, 32 - l);
      if Len2(e1) != 0 {
        UpperHalf(lits, x, p + l0, e1, l);
        e2, l2 := Half2(e1), Len2(e1);
      } else {
        e2, l2 := LookUp(r, table, lits, x, p + l0 + l1);
      }
    }
    if l2 == 0 { ThirdMissing(lits, c, x, p, Sym(e0), l0, s1, l1); }
    ok := l2 != 0;
  }

  lemma Enough(r: Reader, x: nat, p: nat, bits: int)
    requires StandsAt(r, x, p, bits) && bits >= TABLE_BITS
    ensures StandsAt(r, x, p, TABLE_BITS)
  {
  }

  // Three bytes as a pixel.
  function Bytes3(s0: nat, s1: nat, s2: nat): nat { s0 + 256 * s1 + 65536 * s2 }
  function Bytes4(s0: nat, s1: nat, s2: nat, s3: nat): nat { s0 + 256 * s1 + 65536 * s2 + 16777216 * s3 }

  lemma LostAfter(t: Option<Read>, p: nat, limit: int, len: nat)
    requires t.Some? ==> t.value.len >= len
    requires p + len > limit
    ensures LostToken(t, p, limit)
  {
  }

  lemma LostNone(t: Option<Read>, p: nat, limit: int)
    requires t.None?
    ensures LostToken(t, p, limit)
  {
  }

  // A pixel of three literals after its first one. The entry of the last one may hold one more symbol.
  method ThreeChannels(r: Reader, table: array<nat>, ghost lits: seq<nat>, ghost x: nat, ghost p: nat, e0: nat,
      ghost l0: nat)
    returns (ok: bool, s1: nat, e2: nat, ghost l2: nat, ghost q: nat)
    requires Decoding(table[..], lits) && StandsAt(r, x, p + l0, 32) && Literal(lits, x, p, e0, l0) && Sym(e0) < 256
    modifies r
    ensures ok ==> s1 < 256 && Sym(e2) < 256 && p < q
    ensures ok ==> ReadToken(lits, 3, true, Upper(x, p)) == Some(Read(Pixel(Bytes3(Sym(e0), s1, Sym(e2))), q - p))
    ensures ok ==> l2 <= q && StandsAt(r, x, q, 32) && Literal(lits, x, q - l2, e2, l2)
    ensures !ok ==> LostToken(ReadToken(lits, 3, true, Upper(x, p)), p, 8 * |r.src| - 56)
  {
    hide Upper, Number, Decoding, Symbol, Next, StandsAt, Literal, ReadToken, LostToken, Sym, Len, Sym2, Len2, Half2;
    ghost var token, limit := ReadToken(lits, 3, true, Upper(x, p)), 8 * |r.src| - 56;
    var l;
    ghost var l1;
    ok, s1, e2, l, l1 := SecondAndThird(r, table, lits, 3, x, p, e0, l0);
    l2, q := l, p + l0 + l1 + l;
    if !ok {
      LostNone(token, p, limit);
      return;
    }
    LiteralNext(lits, x, p, e0, l0);
    LiteralNext(lits, x, p + l0 + l1, e2, l2);
    PixelThree(lits, x, p, Sym(e0), l0, s1, l1, Sym(e2), l2);
    ok := TakeAndRefill(r, l, x, p + l0 + l1, TABLE_BITS);
    if !ok {
      LostAfter(token, p, limit, l0 + l1 + l2);
      return;
    }
    if s1 >= 256 || Sym(e2) >= 256 {
      LostNone(token, p, limit);
      ok := false;
    }
  }

  // One more pixel whose first literal is the upper half of the entry of the last one. It is read only if that is
  // a literal indeed.
  method SpeculativePixel(r: Reader, table: array<nat>, ghost lits: seq<nat>, ghost x: nat, ghost p: nat, e: nat,
      ghost l: nat)
    returns (ok: bool, s1: nat, s2: nat, ghost q: nat)
    requires Decoding(table[..], lits) && l <= p && StandsAt(r, x, p, 32) && Literal(lits, x, p - l, e, l)
      && Len2(e) != 0
      && Sym2(e) < 256
    modifies r
    ensures ok ==> s1 < 256 && s2 < 256 && p < q
    ensures ok ==> ReadToken(lits, 3, true, Upper(x, p)) == Some(Read(Pixel(Bytes3(Sym2(e), s1, s2)), q - p))
    ensures ok ==> StandsAt(r, x, q, TABLE_BITS)
    ensures !ok ==> LostToken(ReadToken(lits, 3, true, Upper(x, p)), p, 8 * |r.src| - 56)
  {
    hide Upper, Number, Decoding, Symbol, Next, StandsAt, Literal, ReadToken, LostToken, Sym, Len, Sym2, Len2, Half2;
    ghost var token, limit := ReadToken(lits, 3, true, Upper(x, p)), 8 * |r.src| - 56;
    s1, s2, q := 0, 0, p;
    UpperHalf(lits, x, p - l, e, l);
    var l0 := Len2(e);
    NextLength(lits, x, p, Sym2(e), l0);
    Take(r, l0, x, p, 32);
    Enough(r, x, p + l0, 32 - l0);
    var e1, l1 := LookUp(r, table, lits, x, p + l0);
    if l1 == 0 {
      SecondMissing(lits, 3, x, p, Sym2(e), l0);
      LostNone(token, p, limit);
      return false, s1, s2, q;
    }
    LiteralNext(lits, x, p + l0, e1, l1);
    s1 := Sym(e1);
    ok := TakeAndRefill(r, l1, x, p + l0, TABLE_BITS);
    if !ok {
      TwoLong(lits, x, p, Sym2(e), l0, s1, l1);
      LostAfter(token, p, limit, l0 + l1);
      return;
    }
    var e2, l2;
    if Len2(e1) != 0 {
      UpperHalf(lits, x, p + l0, e1, l1);
      e2, l2 := Half2(e1), Len2(e1);
    } else {
      Enough(r, x, p + l0 + l1, 32);
      e2, l2 := LookUp(r, table, lits, x, p + l0 + l1);
      if l2 == 0 {
        ThirdMissing(lits, 3, x, p, Sym2(e), l0, s1, l1);
        LostNone(token, p, limit);
        return false, s1, s2, q;
      }
    }
    LiteralNext(lits, x, p + l0 + l1, e2, l2);
    s2 := Sym(e2);
    PixelThree(lits, x, p, Sym2(e), l0, s1, l1, s2, l2);
    Take(r, l2, x, p + l0 + l1, 32);
    q := p + l0 + l1 + l2;
    Enough(r, x, q, 32 - l2);
    ok := s1 < 256 && s2 < 256;
    if !ok { LostNone(token, p, limit); }
  }

  lemma NextLength(lits: seq<nat>, x: nat, p: nat, s: nat, l: nat)
    requires Next(lits, Upper(x, p), s, l)
    ensures 0 < l <= TABLE_BITS
  {
    hide Symbol, Upper;
  }

  // A pixel is no shorter than its first two literals.
  lemma TwoLong(lits: seq<nat>, x: nat, p: nat, s0: nat, l0: nat, s1: nat, l1: nat)
    requires TwoAt(lits, x, p, s0, l0, s1, l1) && s0 < 256
    ensures ReadToken(lits, 3, true, Upper(x, p)).Some? ==> ReadToken(lits, 3, true, Upper(x, p)).value.len >= l0 + l1
  {
    hide Next, Symbol, Upper, ReadToken, ReadLiterals;
    UpperUpper(x, p, l0);
    PixelIs(lits, 3, Upper(x, p), s0, l0);
    LiteralsStep(lits, Upper(x, p), s0, l0, 2);
    LiteralsStep(lits, Upper(x, p + l0), s1, l1, 1);
  }

  // A pixel of four literals after its first one.
  method FourChannels(r: Reader, table: array<nat>, ghost lits: seq<nat>, ghost x: nat, ghost p: nat, e0: nat,
      ghost l0: nat)
    returns (ok: bool, s1: nat, s2: nat, s3: nat, ghost q: nat)
    requires Decoding(table[..], lits) && StandsAt(r, x, p + l0, 32) && Literal(lits, x, p, e0, l0) && Sym(e0) < 256
    modifies r
    ensures ok ==> s1 < 256 && s2 < 256 && s3 < 256 && p < q
    ensures ok ==> StandsAt(r, x, q, TABLE_BITS) && ReadToken(lits, 4, true,
      Upper(x, p)) == Some(Read(Pixel(Bytes4(Sym(e0), s1, s2, s3)), q - p))
    ensures !ok ==> LostToken(ReadToken(lits, 4, true, Upper(x, p)), p, 8 * |r.src| - 56)
  {
    hide Upper, Number, Decoding, Symbol, Next, StandsAt, Literal, ReadToken, LostToken, Sym, Len, Sym2, Len2, Half2;
    ghost var token, limit := ReadToken(lits, 4, true, Upper(x, p)), 8 * |r.src| - 56;
    s2, s3, q := 0, 0, p;
    var e2, l2;
    ghost var l1;
    ok, s1, e2, l2, l1 := SecondAndThird(r, table, lits, 4, x, p, e0, l0);
    if !ok {
      LostNone(token, p, limit);
      return;
    }
    LiteralNext(lits, x, p, e0, l0);
    LiteralNext(lits, x, p + l0 + l1, e2, l2);
    s2 := Sym(e2);
    PixelFourLong(lits, x, p, Sym(e0), l0, s1, l1, s2, l2, limit);
    var e3, l3;
    if Len2(e2) != 0 {
      UpperHalf(lits, x, p + l0 + l1, e2, l2);
      e3, l3 := Half2(e2), Len2(e2);
      LiteralNext(lits, x, p + l0 + l1 + l2, e3, l3);
      s3 := Sym(e3);
      PixelFour(lits, x, p, Sym(e0), l0, s1, l1, s2, l2, s3, l3);
      ok := TakeAndRefill(r, l2 + l3, x, p + l0 + l1, TABLE_BITS);
      if !ok {
        LostAfter(token, p, limit, l0 + l1 + l2 + l3);
        return;
      }
      q := p + l0 + l1 + l2 + l3;
      Enough(r, x, q, 32);
    } else {
      ok := TakeAndRefill(r, l2, x, p + l0 + l1, TABLE_BITS);
      if !ok { return; }
      Enough(r, x, p + l0 + l1 + l2, 32);
      e3, l3 := LookUp(r, table, lits, x, p + l0 + l1 + l2);
      if l3 == 0 {
        LostNone(token, p, limit);
        return false, s1, s2, s3, q;
      }
      LiteralNext(lits, x, p + l0 + l1 + l2, e3, l3);
      s3 := Sym(e3);
      PixelFour(lits, x, p, Sym(e0), l0, s1, l1, s2, l2, s3, l3);
      Take(r, l3, x, p + l0 + l1 + l2, 32);
      q := p + l0 + l1 + l2 + l3;
      Enough(r, x, q, 32 - l3);
    }
    ok := s1 < 256 && s2 < 256 && s3 < 256;
    if !ok { LostNone(token, p, limit); }
  }

  // --- runs --------------------------------------------------------------------------------------

  lemma NoExtra(s: nat)
    requires 257 <= s < 265
    ensures LENGTH_EXTRA[s - 257] == 0
  {
  }

  lemma FewExtra(s: nat)
    requires 257 <= s < SYMBOLS
    ensures |LENGTH_EXTRA| == |LENGTH_RANGE| == 31 && LENGTH_EXTRA[s - 257] <= 5
  {
  }

  // The length of a run in bytes. Symbols 285 to 287 have no extra bits; a stream may contain them, although the
  // encoder makes none, and then no bits are taken for them.
  method RunLength(r: Reader, ghost lits: seq<nat>, c: nat, ghost x: nat, ghost p: nat, s: nat, ghost l: nat)
    returns (len: nat, ghost q: nat)
    requires Channels(c) && 256 < s < SYMBOLS && Next(lits, Upper(x, p), s, l) && StandsAt(r, x, p + l, 32)
    modifies r
    ensures p < q && StandsAt(r, x, q, TABLE_BITS) && len == RunBytes(s, Upper(x, p), l)
    ensures ReadToken(lits, c, true, Upper(x, p)) == if len % c != 0 then None else Some(Read(Run(len / c), q - p))
  {
    hide Upper, Number, Symbol, Next, StandsAt, ReadToken, Lower, LENGTH_EXTRA, LENGTH_RANGE;
    FewExtra(s);
    FirstSymbol(lits, c, true, Upper(x, p), s, l);
    var runLen := LENGTH_RANGE[s - 257];
    ghost var extra := LENGTH_EXTRA[s - 257];
    var e := 0;
    if s >= 265 {
      e := TakeField(r, LENGTH_EXTRA[s - 257], x, p + l, 32);
    } else {
      NoExtra(s);
      NoField(Upper(x, p + l));
    }
    Take(r, 1, x, p + l + extra, 32 - extra);
    q := p + l + extra + 1;
    Enough(r, x, q, 31 - extra);
    UpperUpper(x, p, l);
    len := runLen + e;
  }

  lemma NoField(y: nat)
    ensures Lower(y, 0) == 0
  {
  }

  method TakeField(r: Reader, n: nat, ghost x: nat, ghost p: nat, ghost bits: nat) returns (v: nat)
    requires StandsAt(r, x, p, bits) && n <= bits
    modifies r
    ensures StandsAt(r, x, p + n, bits - n) && v == Lower(Upper(x, p), n)
  {
    hide Upper, Lower, Number, Pow2;
    v := r.GetNe(n);
  }
}
