// Reading the header of a dynamic block and building the decoder's table.
module HeaderReader {
  import opened Options
  import opened Sequences
  import opened PrefixCodes
  import opened Bits
  import opened CanonicalCodes
  import opened Streams
  import opened DecoderTable
  import opened TwoSymbolTable
  import opened CodeLengthRuns
  import opened DynamicHeader
  import opened UnusedSymbols
  import opened BitReader
  import Zlib

  // A finished two-symbol table for a code.
  ghost predicate TableFor(table: seq<nat>, sizes: seq<nat>) {
    exists single: seq<nat>, m: nat :: PairedTable(sizes, table, single, m)
  }

  // What the stream says is nothing, or goes on beyond limit.
  ghost predicate Lost(s: Option<Sizes>, start: int, limit: int) { s.None? || start + s.value.len > limit }

  // --- the lengths of the code length codes ------------------------------------------------------

  method ReadClenSizes(r: Reader, n: nat) returns (ok: bool, clen: array<nat>)
    requires r.Valid() && r.bitBufSize >= 32 && n <= CLEN_SYMBOLS
    modifies r
    ensures r.Valid() && fresh(clen) && clen.Length == CLEN_SYMBOLS
    ensures ok ==> clen[..] == ReadClens(Upper(Number(r.src), old(r.Pos())), n)
    ensures ok ==> (forall s :: 0 <= s < CLEN_SYMBOLS ==> clen[s] < 8)
    ensures ok ==> r.Pos() == old(r.Pos()) + 3 * n && r.bitBufSize >= 32
    ensures !ok ==> old(r.Pos()) + 3 * n > 8 * |r.src| - 56
  {
    hide Lower, Upper, Number, ReadClens, Order, Pow2;
    ghost var x, p := Number(r.src), r.Pos();
    clen := new nat[CLEN_SYMBOLS](_ => 0);
    NoClens(clen[..], Upper(x, p));
    var i := 0;
    while i < n
      invariant 0 <= i <= n && r.Valid() && r.bitBufSize >= 32 && r.Pos() == p + 3 * i
      invariant clen[..] == ReadClens(Upper(x, p), i) && forall s :: 0 <= s < CLEN_SYMBOLS ==> clen[s] < 8
    {
      OrderInverse(i);
      NextClen(x, p, i);
      ghost var was := clen[..];
      var len;
      ok, len := r.Get(3);
      if !ok { return; }
      clen[Order(i)] := len;
      assert clen[..] == was[Order(i) := len];
      i := i + 1;
    }
    ok := true;
  }

  lemma NoClens(clen: seq<nat>, y: nat)
    requires |clen| == CLEN_SYMBOLS && forall s :: 0 <= s < CLEN_SYMBOLS ==> clen[s] == 0
    ensures clen == ReadClens(y, 0)
  {
  }

  lemma NextClen(x: nat, p: nat, i: nat)
    requires i < CLEN_SYMBOLS
    ensures Order(i) < CLEN_SYMBOLS && Pow2(3) == 8
    ensures ReadClens(Upper(x, p), i + 1) == ReadClens(Upper(x, p), i)[Order(i) := Lower(Upper(x, p + 3 * i), 3)]
  {
    hide Order, Lower, Upper;
    OrderInverse(i);
    UpperUpper(x, p, 3 * i);
  }

  // --- the lengths of all codes ------------------------------------------------------------------

  // Reading on from position pos with what is in out comes to what reading from position start comes to.
  ghost predicate Resumes(clen: seq<nat>, x: nat, start: nat, total: nat, pos: nat, out: seq<nat>) {
    && start <= pos
    && ReadSizes(clen, Upper(x, start), total, []) ==
         match ReadSizes(clen, Upper(x, pos), total, out)
         case None => None
         case Some(r) => Some(Sizes(r.sizes, (pos - start) + r.len))
  }

  lemma ResumesStart(clen: seq<nat>, x: nat, start: nat, total: nat)
    ensures Resumes(clen, x, start, total, start, [])
  {
    hide ReadSizes;
  }

  lemma ResumesNext(clen: seq<nat>, x: nat, start: nat, total: nat, pos: nat, out: seq<nat>)
    requires Resumes(clen, x, start, total, pos, out) && |out| < total
    ensures var it := ReadItem(clen, Upper(x, pos), out);
      && (it.None? ==> ReadSizes(clen, Upper(x, start), total, []).None?)
      && (it.Some? && |out| + |it.value.added| > total ==> ReadSizes(clen, Upper(x, start), total, []).None?)
      && (it.Some? && |out| + |it.value.added| <= total
          ==> Resumes(clen, x, start, total, pos + it.value.len, out + it.value.added))
  {
    hide ReadItem, Upper;
    var it := ReadItem(clen, Upper(x, pos), out);
    if it.Some? { UpperUpper(x, pos, it.value.len); }
  }

  lemma ResumesEnd(clen: seq<nat>, x: nat, start: nat, total: nat, pos: nat, out: seq<nat>)
    requires Resumes(clen, x, start, total, pos, out) && |out| >= total
    ensures start <= pos && ReadSizes(clen, Upper(x, start), total, []) == Some(Sizes(out, pos - start))
  {
  }

  // However the rest goes on, no bit is given back.
  lemma ResumesFar(clen: seq<nat>, x: nat, start: nat, total: nat, pos: nat, out: seq<nat>, limit: int)
    requires Resumes(clen, x, start, total, pos, out) && pos > limit
    ensures Lost(ReadSizes(clen, Upper(x, start), total, []), start, limit)
  {
    hide ReadSizes;
  }

  // An entry of the table of the code length code.
  lemma ClenEntry(clen: seq<nat>, t: seq<nat>, y: nat)
    requires Usable(clen) && Limited(clen, 7) && |clen| == CLEN_SYMBOLS && Lookup(clen, t)
    ensures var e := TwoSymbolTable.Peek(t, y);
      && (e / 512 == 0 <==> Symbol(clen, y).None?)
      && (e / 512 > 0 ==> Symbol(clen, y) == Some(e % 512) && e % 512 < CLEN_SYMBOLS && clen[e % 512] == e / 512 <= 7)
  {
    hide Lower, Matches, Usable, Fits;
    UsableFits(clen);
    LookupSingle(clen, t);
    LookupStream(clen, t, y);
    LowerUpper(y, TABLE_BITS);
    TableSizeIs();
    var e := TwoSymbolTable.Peek(t, y);
    assert Single(e);
    SingleParts(e);
    if Symbol(clen, y).Some? { MatchSize(clen, y, Symbol(clen, y).value); }
    if Len(e) > 0 { MatchSize(clen, y, Sym(e)); SymbolIs(clen, y, Sym(e)); }
  }

  lemma SingleParts(e: nat)
    requires Single(e)
    ensures Sym(e) == e % 512 && Len(e) == e / 512
  {
    if e != 0 { DivModIs(e, 512, Len(e), Sym(e)); }
  }

  lemma MatchSize(sizes: seq<nat>, y: nat, s: nat)
    requires Matches(sizes, y, s)
    ensures s < |sizes| && sizes[s] > 0
  {
  }

  // No length is less than the least.
  ghost predicate AtLeast(sizes: seq<nat>, m: nat) {
    forall i :: 0 <= i < |sizes| ==> sizes[i] == 0 || m <= sizes[i] <= TABLE_BITS
  }

  // The lengths read so far are at the start of the array, and the rest of it is empty.
  ghost predicate Stored(all: seq<nat>, out: seq<nat>, m: nat) {
    |all| == LIT_SYMBOLS + DIST_SYMBOLS && |out| <= |all| && all == out + NoLengths(|all| - |out|) && AtLeast(out, m)
  }

  lemma StoreMore(all: seq<nat>, out: seq<nat>, m: nat, v: nat, m': nat)
    requires Stored(all, out, m) && |out| < |all| && v <= TABLE_BITS && m' <= m && (v > 0 ==> m' <= v)
    ensures Stored(all[|out| := v], out + [v], m')
  {
  }

  lemma LastStored(all: seq<nat>, out: seq<nat>, m: nat)
    requires Stored(all, out, m)
    ensures |out| > 0 ==> all[|out| - 1] == out[|out| - 1] && (out[|out| - 1] == 0 || m <= out[|out| - 1] <= TABLE_BITS)
    ensures |all| == LIT_SYMBOLS + DIST_SYMBOLS && |out| <= |all|
  {
  }

  // Writes a length n times.
  method StoreRun(codeSizes: array<nat>, ghost out: seq<nat>, cur: nat, n: nat, v: nat, m: nat)
    requires Stored(codeSizes[..], out, m) && cur == |out| && cur + n <= codeSizes.Length
      && (v == 0 || m <= v <= TABLE_BITS)
    modifies codeSizes
    ensures Stored(codeSizes[..], out + Repeat(v, n), m)
  {
    hide Stored, Repeat;
    ghost var all := codeSizes[..];
    RunOfNone(out, v);
    var i: int := 0;
    while i < n
      invariant 0 <= i <= n && Stored(codeSizes[..], out + Repeat(v, i), m)
    {
      ghost var was := codeSizes[..];
      StoreMore(was, out + Repeat(v, i), m, v, m);
      codeSizes[cur + i] := v;
      assert codeSizes[..] == was[cur + i := v];
      RunOfMore(out, v, i);
      i := i + 1;
    }
  }

  lemma RunOfNone(out: seq<nat>, v: nat)
    ensures out + Repeat(v, 0) == out
  {
  }

  lemma RunOfMore(out: seq<nat>, v: nat, i: nat)
    ensures out + Repeat(v, i + 1) == out + Repeat(v, i) + [v]
  {
  }

  // Everything that stays the same while the lengths are read.
  ghost predicate ReadingSizes(clen: seq<nat>, table: seq<nat>, total: nat) {
    Usable(clen) && Limited(clen, 7) && |clen| == CLEN_SYMBOLS && Lookup(clen, table)
        && total <= LIT_SYMBOLS + DIST_SYMBOLS
  }

  method ClenSymbol(r: Reader, table: array<nat>, ghost clen: seq<nat>) returns (sym: nat, symLen: nat)
    requires r.Valid() && r.bitBufSize >= TABLE_BITS && table.Length == TABLE_SIZE && Usable(clen) && Limited(clen, 7)
      && |clen| == CLEN_SYMBOLS && Lookup(clen, table[..])
    ensures var s := Symbol(clen, Upper(Number(r.src), r.Pos()));
      && (symLen == 0 <==> s.None?) && symLen <= 7
      && (symLen > 0 ==> s == Some(sym) && sym < CLEN_SYMBOLS && clen[sym] == symLen)
  {
    hide Lower, Upper, Number, Usable, Limited, Lookup, Symbol;
    ClenEntry(clen, table[..], Upper(Number(r.src), r.Pos()));
    TableSizeIs();
    var w := r.Peek(TABLE_BITS);
    var e := table[w];
    sym, symLen := e % 512, e / 512;
  }

  lemma ItemNone(clen: seq<nat>, y: nat, out: seq<nat>)
    requires Symbol(clen, y).None? || 12 < Symbol(clen, y).value <= 15 || (Symbol(clen, y).value == 16 && |out| == 0)
    ensures ReadItem(clen, y, out).None?
  {
    hide Symbol, Repeat;
  }

  lemma ItemLiteral(clen: seq<nat>, y: nat, out: seq<nat>, c: nat)
    requires Symbol(clen, y) == Some(c) && c <= 12 && c < |clen|
    ensures ReadItem(clen, y, out) == Some(Item([c], clen[c]))
  {
    hide Symbol, Repeat;
  }

  // The value and the number of the lengths of a run.
  function RunValue(c: nat, out: seq<nat>): nat { if c == 16 && |out| > 0 then out[|out| - 1] else 0 }
  function RunBase(c: nat): nat { if c == 18 then 11 else 3 }

  lemma ItemRun(clen: seq<nat>, y: nat, out: seq<nat>, c: nat, v: nat)
    requires Symbol(clen, y) == Some(c) && 16 <= c <= 18 && c < |clen| && (c == 16 ==> |out| > 0)
      && v == Lower(Upper(y, clen[c]), ExtraBits(c)) < Pow2(ExtraBits(c))
    ensures ReadItem(clen, y, out) == Some(Item(Repeat(RunValue(c, out), RunBase(c) + v), clen[c] + ExtraBits(c)))
  {
    hide Symbol, Repeat, Lower, Upper;
    ExtraLimits(c);
  }

  // At least the bits of its symbol.
  lemma ItemLong(clen: seq<nat>, y: nat, out: seq<nat>, c: nat)
    requires Symbol(clen, y) == Some(c) && ReadItem(clen, y, out).Some?
    ensures c < |clen| && ReadItem(clen, y, out).value.len == clen[c] + ExtraBits(c)
  {
    hide Symbol, Added;
  }

  // The next symbol of the code length code. If it can not be read, then the header is not there or goes on
  // beyond the end.
  method ReadOneItem(r: Reader, table: array<nat>, ghost clen: seq<nat>, total: nat, codeSizes: array<nat>,
      ghost out: seq<nat>,
      cur: nat, m: nat, ghost start: nat)
    returns (ok: bool, ghost out': seq<nat>, cur': nat, m': nat)
    requires r.Valid() && r.bitBufSize >= 32 && table != codeSizes && table.Length == TABLE_SIZE
      && ReadingSizes(clen, table[..], total)
    requires Stored(codeSizes[..], out, m) && cur == |out| < total && m <= 15
    requires 0 <= r.Pos() && Resumes(clen, Number(r.src), start, total, r.Pos(), out)
    modifies r, codeSizes
    ensures r.Valid()
    ensures ok ==> r.bitBufSize >= 32 && Stored(codeSizes[..], out', m') && cur' == |out'| && cur < cur' <= total
    ensures ok ==> m' <= 15
    ensures ok ==> 0 <= r.Pos() && Resumes(clen, Number(r.src), start, total, r.Pos(), out')
    ensures !ok ==> Lost(ReadSizes(clen, Upper(Number(r.src), start), total, []), start, 8 * |r.src| - 56)
  {
    hide Lower, Upper, Number, Usable, Limited, Lookup, Symbol, Resumes, Stored, ReadItem, ReadSizes, Repeat, Pow2,
      ExtraBits,
      ExtraLimit;
    ghost var x, p := Number(r.src), r.Pos();
    ghost var y := Upper(x, p);
    ResumesNext(clen, x, start, total, p, out);
    LastStored(codeSizes[..], out, m);
    out', cur', m' := out, cur, m;
    var sym, symLen := ClenSymbol(r, table, clen);
    if symLen == 0 {
      ItemNone(clen, y, out);
      return false, out', cur', m';
    }
    if sym <= 15 {
      ok := r.Skip(symLen);
      if sym > TABLE_BITS {
        ItemNone(clen, y, out);
        return false, out', cur', m';
      }
      ItemLiteral(clen, y, out, sym);
      if !ok {
        ResumesFar(clen, x, start, total, p + symLen, out + [sym], 8 * |r.src| - 56);
        return;
      }
      if sym != 0 && sym < m { m' := sym; }
      StoreMore(codeSizes[..], out, m, sym, m');
      codeSizes[cur] := sym;
      out', cur' := out + [sym], cur + 1;
    } else {
      ok, out', cur' := ReadRunItem(r, clen, total, codeSizes, out, cur, m, start, sym, symLen);
    }
  }

  method ReadRunItem(r: Reader, ghost clen: seq<nat>, total: nat, codeSizes: array<nat>, ghost out: seq<nat>, cur: nat,
      m: nat,
      ghost start: nat, sym: nat, symLen: nat)
    returns (ok: bool, ghost out': seq<nat>, cur': nat)
    requires r.Valid() && r.bitBufSize >= 32 && |clen| == CLEN_SYMBOLS && total <= LIT_SYMBOLS + DIST_SYMBOLS
    requires Stored(codeSizes[..], out, m) && cur == |out| < total
    requires 0 <= r.Pos() && Resumes(clen, Number(r.src), start, total, r.Pos(), out)
    requires 15 < sym < CLEN_SYMBOLS && Symbol(clen, Upper(Number(r.src), r.Pos())) == Some(sym)
      && clen[sym] == symLen <= 7
    modifies r, codeSizes
    ensures r.Valid()
    ensures ok ==> r.bitBufSize >= 32 && Stored(codeSizes[..], out', m) && cur' == |out'| && cur < cur' <= total
    ensures ok ==> 0 <= r.Pos() && Resumes(clen, Number(r.src), start, total, r.Pos(), out')
    ensures !ok ==> Lost(ReadSizes(clen, Upper(Number(r.src), start), total, []), start, 8 * |r.src| - 56)
  {
    hide Lower, Upper, Number, Symbol, Resumes, Stored, ReadItem, ReadSizes, Repeat, Pow2, ExtraBits;
    ghost var x, p := Number(r.src), r.Pos();
    ghost var y := Upper(x, p);
    ResumesNext(clen, x, start, total, p, out);
    LastStored(codeSizes[..], out, m);
    out', cur' := out, cur;
    FewExtra(sym);
    ok := r.Skip(symLen);
    if !ok {
      RunLost(clen, x, start, total, p, out, sym, 8 * |r.src| - 56);
      return;
    }
    var v;
    ok, v := r.Get(ExtraBits(sym));
    UpperUpper(x, p, symLen);
    if sym == 16 && cur == 0 {
      ItemNone(clen, y, out);
      return false, out', cur';
    }
    ItemRun(clen, y, out, sym, v);
    if !ok {
      RunLost(clen, x, start, total, p, out, sym, 8 * |r.src| - 56);
      return;
    }
    var repLen := RunBase(sym) + v;
    if cur + repLen > total { return false, out', cur'; }
    var repCodeSize := if sym == 16 then codeSizes[cur - 1] else 0;
    assert repCodeSize == RunValue(sym, out);
    StoreRun(codeSizes, out, cur, repLen, repCodeSize, m);
    out', cur' := out + Repeat(repCodeSize, repLen), cur + repLen;
  }

  lemma FewExtra(c: nat)
    ensures ExtraBits(c) <= 7
  {
  }

  // A run that reaches beyond the limit.
  lemma RunLost(clen: seq<nat>, x: nat, start: nat, total: nat, p: nat, out: seq<nat>, c: nat, limit: int)
    requires Resumes(clen, x, start, total, p, out) && |out| < total && Symbol(clen, Upper(x, p)) == Some(c)
      && c < |clen|
      && p + clen[c] + ExtraBits(c) > limit
    ensures Lost(ReadSizes(clen, Upper(x, start), total, []), start, limit)
  {
    hide Lower, Upper, Symbol, Resumes, ReadItem, ReadSizes, ExtraBits;
    ResumesNext(clen, x, start, total, p, out);
    var it := ReadItem(clen, Upper(x, p), out);
    if it.Some? && |out| + |it.value.added| <= total {
      ItemLong(clen, Upper(x, p), out, c);
      ResumesFar(clen, x, start, total, p + it.value.len, out + it.value.added, limit);
    }
  }

  // All lengths.
  method ReadAllSizes(r: Reader, table: array<nat>, ghost clen: seq<nat>, total: nat, codeSizes: array<nat>)
    returns (ok: bool, ghost sizes: seq<nat>, m: nat)
    requires r.Valid() && r.bitBufSize >= 32 && table != codeSizes && table.Length == TABLE_SIZE
      && ReadingSizes(clen, table[..], total)
    requires 0 <= r.Pos() && Stored(codeSizes[..], [], 15)
    modifies r, codeSizes
    ensures r.Valid()
    ensures ok ==> r.bitBufSize >= 32 && Stored(codeSizes[..], sizes, m) && |sizes| == total && old(r.Pos()) <= r.Pos()
    ensures ok ==> ReadSizes(clen, Upper(Number(r.src), old(r.Pos())), total, []) == Some(Sizes(sizes, r.Pos() - old(r.Pos())))
    ensures !ok ==> Lost(ReadSizes(clen, Upper(Number(r.src), old(r.Pos())), total, []), old(r.Pos()), 8 * |r.src| - 56)
  {
    hide Upper, Number, ReadingSizes, Resumes, Stored, ReadSizes, Lost;
    ghost var x, start := Number(r.src), r.Pos();
    ghost var tab := table[..];
    ResumesStart(clen, x, start, total);
    sizes, m := [], 15;
    var curCode := 0;
    while curCode < total
      invariant 0 <= curCode <= total && curCode == |sizes| && m <= 15 && table[..] == tab
      invariant r.Valid() && r.bitBufSize >= 32 && Stored(codeSizes[..], sizes, m)
      invariant 0 <= r.Pos() && Resumes(clen, x, start, total, r.Pos(), sizes)
    {
      ok, sizes, curCode, m := ReadOneItem(r, table, clen, total, codeSizes, sizes, curCode, m, start);
      if !ok { return; }
    }
    ResumesEnd(clen, x, start, total, r.Pos(), sizes);
    ok := true;
  }

  // How many of the distances have a code of one bit.
  method CountOneBit(codeSizes: array<nat>, from: nat, n: nat) returns (count: nat)
    requires from + n <= codeSizes.Length
    ensures count == Count(codeSizes[from..from + n], 1)
  {
    count := 0;
    assert codeSizes[from..from + 0] == [];
    var i := 0;
    while i < n
      invariant 0 <= i <= n && count == Count(codeSizes[from..from + i], 1)
    {
      assert codeSizes[from..from + i + 1][..i] == codeSizes[from..from + i];
      if codeSizes[from + i] == 1 { count := count + 1; }
      i := i + 1;
    }
  }

  lemma StoredParts(all: seq<nat>, sizes: seq<nat>, m: nat, numLit: nat, numDist: nat)
    requires Stored(all, sizes, m) && |sizes| == numLit + numDist && numLit <= LIT_SYMBOLS && numDist <= DIST_SYMBOLS
    ensures |all| == LIT_SYMBOLS + DIST_SYMBOLS && all[..numLit] == sizes[..numLit]
      && all[numLit..numLit + numDist] == sizes[numLit..]
    ensures forall i :: numLit <= i < |all| ==> all[i] == OrZero(sizes, i)
    ensures Limited(sizes[..numLit], TABLE_BITS) && forall s :: 0 <= s < numLit && sizes[s] > 0 ==> m <= sizes[s]
  {
  }

  method CheckDistances(codeSizes: array<nat>, ghost sizes: seq<nat>, ghost m: nat, numLit: nat, numDist: nat,
      c: nat) returns (ok: bool)
    requires Stored(codeSizes[..], sizes, m) && |sizes| == numLit + numDist && numLit <= LIT_SYMBOLS
      && numDist <= DIST_SYMBOLS
      && (c == 3 || c == 4) && 257 <= numLit
    ensures ok <==> DistancesFit(sizes, numLit, c)
  {
    hide Count, Stored, Limited;
    StoredParts(codeSizes[..], sizes, m, numLit, numDist);
    var valid := CountOneBit(codeSizes, numLit, numDist);
    assert codeSizes[numLit..numLit + numDist] == codeSizes[..][numLit..numLit + numDist];
    assert codeSizes[numLit + (c - 1)] == codeSizes[..][numLit + (c - 1)];
    if valid < 1 || valid > 2 { return false; }
    if codeSizes[numLit + (c - 1)] != 1 { return false; }
    if valid == 2 {
      if numLit + c >= codeSizes.Length { return false; }
      assert codeSizes[numLit + c] == codeSizes[..][numLit + c];
      if codeSizes[numLit + c] != 1 { return false; }
    }
    return true;
  }

  lemma TableMade(sizes: seq<nat>, lits: seq<nat>, numLit: nat, single: seq<nat>, table: seq<nat>, m: nat)
    requires numLit <= LIT_SYMBOLS && numLit <= |sizes| && lits == sizes[..numLit] + NoLengths(LIT_SYMBOLS - numLit)
    requires Limited(sizes[..numLit], TABLE_BITS) && (forall s :: 0 <= s < numLit && sizes[s] > 0 ==> m <= sizes[s])
    requires Usable(sizes[..numLit]) && Lookup(sizes[..numLit], single)
    requires |table| == TABLE_SIZE && forall i :: 0 <= i < TABLE_SIZE ==> table[i] == Paired(single, i, m)
    ensures TableFor(table, lits) && |lits| == LIT_SYMBOLS && Usable(lits) && Limited(lits, TABLE_BITS)
  {
    hide Usable, Lookup, Fits, Paired;
    assert lits[..numLit] == sizes[..numLit];
    SameUsable(lits, numLit);
    SameLookup(lits, numLit, single);
    UsableFits(lits);
    LookupSize(lits, single);
    assert PairedTable(lits, table, single, m);
  }

  lemma LookupSize(sizes: seq<nat>, t: seq<nat>)
    requires Lookup(sizes, t)
    ensures |t| == TABLE_SIZE
  {
  }

  // The table of the literals.
  method LiteralTable(codeSizes: array<nat>, ghost sizes: seq<nat>, m: nat, numLit: nat, numDist: nat,
      table: array<nat>) returns (ok: bool, ghost lits: seq<nat>)
    requires table != codeSizes && table.Length == TABLE_SIZE
    requires Stored(codeSizes[..], sizes, m) && |sizes| == numLit + numDist && numLit <= LIT_SYMBOLS
      && numDist <= DIST_SYMBOLS
    modifies table
    ensures ok <==> Usable(sizes[..numLit])
    ensures lits == sizes[..numLit] + NoLengths(LIT_SYMBOLS - numLit)
    ensures ok ==> TableFor(table[..], lits) && |lits| == LIT_SYMBOLS && Usable(lits) && Limited(lits, TABLE_BITS)
  {
    hide Stored, Limited, Usable, Lookup, Paired, AllSingle, TableFor;
    StoredParts(codeSizes[..], sizes, m, numLit, numDist);
    lits := sizes[..numLit] + NoLengths(LIT_SYMBOLS - numLit);
    var litCodeSizes := codeSizes[..numLit];
    assert litCodeSizes == codeSizes[..][..numLit] == sizes[..numLit];
    ok := BuildDecoderTable(litCodeSizes, table);
    if !ok { return; }
    ghost var single := table[..];
    LookupSingle(litCodeSizes, single);
    AddSecondSymbols(table, m);
    TableMade(sizes, lits, numLit, single, table[..], m);
  }

  // --- the header --------------------------------------------------------------------------------

  // What the header at position start says, once its first fields and the code length code are known.
  lemma HeaderIs(c: nat, x: nat, start: nat, numLit: nat, numDist: nat, numClen: nat, clen: seq<nat>)
    requires numLit == 257 + Lower(Upper(x, start), 5) && numDist == 1 + Lower(Upper(x, start + 5), 5)
      && numClen == 4 + Lower(Upper(x, start + 10), 4)
    requires numLit + numDist <= LIT_SYMBOLS + DIST_SYMBOLS && numClen <= CLEN_SYMBOLS
      && clen == ReadClens(Upper(x, start + 14), numClen)
    ensures ReadHeader(c, Upper(x, start)) ==
      if !Usable(clen) then None
      else
        match ReadSizes(clen, Upper(x, start + 14 + 3 * numClen), numLit + numDist, [])
        case None => None
        case Some(r) => LiteralSizes(c, numLit, r.sizes, 14 + 3 * numClen + r.len)
  {
    hide Upper, Lower, ReadClens, Usable, ReadSizes, LiteralSizes;
    UpperUpper(x, start, 5);
    UpperUpper(x, start, 10);
    UpperUpper(x, start, 14);
    UpperUpper(x, start, 14 + 3 * numClen);
  }

  // The code length code begins after 14 bits.
  lemma HeaderLong(c: nat, x: nat, start: nat, limit: int)
    requires start + 14 + 3 * (4 + Lower(Upper(x, start + 10), 4)) > limit
    ensures Lost(ReadHeader(c, Upper(x, start)), start, limit)
  {
    hide Upper, Lower, ReadClens, Usable, ReadSizes;
    UpperUpper(x, start, 10);
  }

  lemma HeaderLost(c: nat, numLit: nat, sizes: Option<Sizes>, start: nat, before: nat, limit: int)
    requires Lost(sizes, start + before, limit)
    ensures Lost(match sizes case None => None case Some(r) => LiteralSizes(c, numLit, r.sizes, before + r.len), start,
      limit)
  {
    hide DistancesFit, Usable;
  }

  datatype Fields = Fields(numLit: nat, numDist: nat, numClen: nat)

  ghost predicate FieldsAt(f: Fields, x: nat, start: nat) {
    && f.numLit == 257 + Lower(Upper(x, start), 5) <= LIT_SYMBOLS
        && f.numDist == 1 + Lower(Upper(x, start + 5), 5) <= DIST_SYMBOLS
    && f.numClen == 4 + Lower(Upper(x, start + 10), 4) <= CLEN_SYMBOLS
  }

  lemma FieldSizes()
    ensures Pow2(4) == 16 && Pow2(5) == 32
  {
  }

  // The three numbers at the beginning. 32 distance codes are allowed for, so that no sum of two of them is too large.
  method ReadFields(r: Reader, c: nat) returns (ok: bool, f: Fields)
    requires r.Valid() && r.bitBufSize >= 32 && 0 <= r.Pos()
    modifies r
    ensures r.Valid()
    ensures ok ==> r.bitBufSize >= 32 && r.Pos() == old(r.Pos()) + 14 && FieldsAt(f, Number(r.src), old(r.Pos()))
    ensures !ok ==> Lost(ReadHeader(c, Upper(Number(r.src), old(r.Pos()))), old(r.Pos()), 8 * |r.src| - 56)
  {
    hide Upper, Lower, Number, ReadHeader, Lost, Pow2;
    ghost var x, p, limit := Number(r.src), r.Pos(), 8 * |r.src| - 56;
    FieldSizes();
    f := Fields(257, 1, 4);
    var numLit, numDist, numClen;
    ok, numLit := r.Get(5);
    if !ok {
      HeaderLong(c, x, p, limit);
      return;
    }
    ok, numDist := r.Get(5);
    if !ok {
      HeaderLong(c, x, p, limit);
      return;
    }
    ok, numClen := r.Get(4);
    if !ok {
      HeaderLong(c, x, p, limit);
      return;
    }
    f := Fields(257 + numLit, 1 + numDist, 4 + numClen);
  }

  // Reads the header and builds the table of the literals. It succeeds exactly if the stream has a header, unless
  // the header reaches the very end of the bytes.
  method PrepareDynamicBlock(r: Reader, c: nat, table: array<nat>) returns (ok: bool, ghost lits: seq<nat>)
    requires r.Valid() && r.bitBufSize >= 32 && 0 <= r.Pos() && (c == 3 || c == 4) && table.Length == TABLE_SIZE
    modifies r, table
    ensures r.Valid()
    ensures ok ==> r.bitBufSize >= 32 && r.Pos() >= old(r.Pos()) && TableFor(table[..], lits) && |lits| == LIT_SYMBOLS
    ensures ok ==> Usable(lits) && Limited(lits, TABLE_BITS)
    ensures ok ==> ReadHeader(c, Upper(Number(r.src), old(r.Pos()))) == Some(Sizes(lits, r.Pos() - old(r.Pos())))
    ensures ok ==> Announced(Upper(Number(r.src), old(r.Pos())), lits, r.Pos() - old(r.Pos()))
    ensures !ok ==> Lost(ReadHeader(c, Upper(Number(r.src), old(r.Pos()))), old(r.Pos()), 8 * |r.src| - 56)
  {
    hide Upper, Lower, Number, ReadHeader, Lost, ReadClens, ReadSizes, LiteralSizes, Usable, Limited, Lookup, Stored,
      TableFor, Announced;
    ghost var x, p, limit := Number(r.src), r.Pos(), 8 * |r.src| - 56;
    lits := [];
    var f;
    ok, f := ReadFields(r, c);
    if !ok { return; }
    var clen;
    ok, clen := ReadClenSizes(r, f.numClen);
    if !ok {
      HeaderLong(c, x, p, limit);
      return;
    }
    ghost var cs := clen[..];
    HeaderIs(c, x, p, f.numLit, f.numDist, f.numClen, cs);
    ShortClens(cs);
    var clenTable := new nat[TABLE_SIZE](_ => 0);
    ok := BuildDecoderTable(clen[..], clenTable);
    if !ok {
      NoHeader(ReadHeader(c, Upper(x, p)), p, limit);
      return;
    }
    ghost var before := 14 + 3 * f.numClen;
    var codeSizes := new nat[LIT_SYMBOLS + DIST_SYMBOLS](_ => 0);
    NothingStored(codeSizes[..]);
    ghost var sizes;
    var m;
    ok, sizes, m := ReadAllSizes(r, clenTable, cs, f.numLit + f.numDist, codeSizes);
    if !ok {
      HeaderLost(c, f.numLit, ReadSizes(cs, Upper(x, p + before), f.numLit + f.numDist, []), p, before, limit);
      return;
    }
    ok, lits := CheckLiterals(codeSizes, sizes, m, f, c, table, before + (r.Pos() - (p + before)));
    if !ok { NoHeader(ReadHeader(c, Upper(x, p)), p, limit); } else { HeaderAnnounces(c, Upper(x, p)); }
  }

  // To any reader the header announces these lengths of literal codes.
  ghost predicate Announced(x: nat, lits: seq<nat>, len: nat) {
    exists t :: Zlib.Announces(x, t) && t.lits == lits && t.len == len
  }

  lemma HeaderAnnounces(c: nat, x: nat)
    requires ReadHeader(c, x).Some?
    ensures Announced(x, ReadHeader(c, x).value.sizes, ReadHeader(c, x).value.len)
  {
    hide ReadHeader, Zlib.Announces;
    var t := HeaderMeans(c, x);
  }

  // The checks at the end, and the table.
  method CheckLiterals(codeSizes: array<nat>, ghost sizes: seq<nat>, m: nat, f: Fields, c: nat, table: array<nat>,
      ghost len: nat) returns (ok: bool, ghost lits: seq<nat>)
    requires table != codeSizes && table.Length == TABLE_SIZE && (c == 3 || c == 4) && 257 <= f.numLit <= LIT_SYMBOLS
      && f.numDist <= DIST_SYMBOLS
    requires Stored(codeSizes[..], sizes, m) && |sizes| == f.numLit + f.numDist
    modifies table
    ensures ok ==> TableFor(table[..], lits) && |lits| == LIT_SYMBOLS && Usable(lits) && Limited(lits, TABLE_BITS)
    ensures LiteralSizes(c, f.numLit, sizes, len) == if ok then Some(Sizes(lits, len)) else None
  {
    hide Stored, TableFor, Usable, Limited, DistancesFit;
    lits := [];
    ok := CheckDistances(codeSizes, sizes, m, f.numLit, f.numDist, c);
    if !ok { return; }
    ok, lits := LiteralTable(codeSizes, sizes, m, f.numLit, f.numDist, table);
  }

  lemma ShortClens(clen: seq<nat>)
    requires |clen| == CLEN_SYMBOLS && forall s :: 0 <= s < CLEN_SYMBOLS ==> clen[s] < 8
    ensures Limited(clen, 7) && Limited(clen, TABLE_BITS)
  {
  }

  lemma NoHeader(h: Option<Sizes>, start: int, limit: int)
    requires h.None?
    ensures Lost(h, start, limit)
  {
  }

  lemma NothingStored(all: seq<nat>)
    requires |all| == LIT_SYMBOLS + DIST_SYMBOLS && forall i :: 0 <= i < |all| ==> all[i] == 0
    ensures Stored(all, [], 15)
  {
    assert all == [] + NoLengths(|all|);
  }
}
