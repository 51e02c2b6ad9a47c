// Starting a dynamic block: the code of the literals is made, and the header that describes it is written.
module HeaderWriter {
  import opened Sequences
  import opened Options
  import opened PrefixCodes
  import opened MinimumRedundancy
  import opened Bits
  import opened CanonicalCodes
  import opened Streams
  import opened BitWriter
  import opened CodeLengthRuns
  import opened DynamicHeader
  import opened UnusedSymbols
  import CodeLimits
  import DecoderTable
  import HuffmanTables
  import Zlib

  const MAX_CODE := 12
  const MAX_CLEN_CODE := 7

  // A header: a stream that starts with it says these lengths of literal codes.
  ghost predicate HeaderOf(header: seq<bool>, lits: seq<nat>, c: nat) {
    forall x: nat :: Ahead(x, header) ==> ReadHeader(c, x) == Some(Sizes(lits, |header|))
  }

  // Counts of literals: there is an end of block, the last two symbols do not occur, and sums do not wrap.
  ghost predicate LiteralCounts(counts: seq<nat>) {
    |counts| == LIT_SYMBOLS && counts[256] > 0 && counts[286] == counts[287] == 0 && HuffmanTables.Countable(counts)
  }

  // A code for them.
  ghost predicate LiteralCode(sizes: seq<nat>, counts: seq<nat>) {
    |counts| == LIT_SYMBOLS && HuffmanTables.SizesFor(sizes, counts, MAX_CODE) && HuffmanTables.Dense(sizes, MAX_CODE)
  }

  // --- codes with at least one symbol can be used ------------------------------------------------

  lemma {:induction false} UsedAtLeast(sizes: seq<nat>, s: nat, k: nat)
    requires s < |sizes| && 0 < sizes[s] <= k
    ensures Used(sizes, k) > 0
    decreases k
  {
    if sizes[s] < k { UsedAtLeast(sizes, s, k - 1); } else { RankBound(sizes, s); }
  }

  lemma {:induction false} UsedBeyond(sizes: seq<nat>, m: nat, k: nat)
    requires Limited(sizes, m) && m <= k
    ensures Used(sizes, k) == Used(sizes, m)
    decreases k
  {
    if k > m {
      DecoderTable.NoneLonger(sizes, m, k);
      UsedBeyond(sizes, m, k - 1);
    }
  }

  lemma DenseUsable(sizes: seq<nat>, limit: nat, s: nat)
    requires Limited(sizes, limit) && 1 <= limit <= TABLE_BITS && HuffmanTables.Dense(sizes, limit) && s < |sizes|
      && sizes[s] > 0
    ensures Usable(sizes) && Limited(sizes, TABLE_BITS)
  {
    UsedAtLeast(sizes, s, limit);
    UsedBeyond(sizes, limit, 15);
    hide Used;
    if Used(sizes, limit) >= 2 {
      DecoderTable.SpaceBeyond(sizes, limit, TABLE_BITS, TABLE_BITS);
      DecoderTable.SpaceScale(sizes, limit, limit, TABLE_BITS - limit);
      PowAdd(limit, TABLE_BITS - limit);
    }
  }

  // --- the distance code -------------------------------------------------------------------------

  lemma {:induction false} ShortShare(sizes: seq<nat>, k: nat, m: nat)
    requires 2 <= m && 1 <= k <= m
    ensures Space(sizes, k, m) <= Count(sizes, 1) * Pow2(m - 1) + (Used(sizes, k) - Count(sizes, 1)) * Pow2(m - 2)
    ensures Used(sizes, k) >= Count(sizes, 1)
    decreases k
  {
    if k == 1 {
      assert Space(sizes, 0, m) == 0 && Used(sizes, 0) == 0;
    } else {
      ShortShare(sizes, k - 1, m);
      DecoderTable.PowLess(m - k, m - 2);
      MulLess(Count(sizes, k), Pow2(m - k), Pow2(m - 2));
      AddMultiples(Used(sizes, k - 1) - Count(sizes, 1), Count(sizes, k), Pow2(m - 2));
    }
  }

  lemma MulLess(a: nat, p: nat, q: nat)
    requires p <= q
    ensures a * p <= a * q
  {
  }

  // A complete code of two symbols has codes of one bit.
  lemma TwoShort(sizes: seq<nat>, m: nat)
    requires 2 <= m && Complete(sizes, m) && Used(sizes, m) == 2
    ensures Count(sizes, 1) == 2
  {
    ShortShare(sizes, m, m);
    var a, p := Count(sizes, 1), Pow2(m - 2);
    assert Pow2(m) == 4 * p && Pow2(m - 1) == 2 * p;
    assert p > 0;
    hide Count, Used, Space, Pow2;
    assert a * (2 * p) + (2 - a) * p == (2 + a) * p;
    CodeLimits.Compare(4, 2 + a, p);
  }

  // The counts of the distance symbols: that for c bytes, and the next one.
  ghost predicate DistanceCounts(counts: seq<nat>, c: nat) {
    && (c == 3 || c == 4) && |counts| == DIST_SYMBOLS && counts[c - 1] == counts[c] == 1
    && forall s :: 0 <= s < DIST_SYMBOLS && s != c - 1 && s != c ==> counts[s] == 0
  }

  lemma {:induction false} UsedSnoc(sizes: seq<nat>, n: nat, k: nat)
    requires n < |sizes|
    ensures Used(sizes[..n + 1], k) == Used(sizes[..n], k) + if 0 < sizes[n] <= k then 1 else 0
    decreases k
  {
    if k > 0 {
      UsedSnoc(sizes, n, k - 1);
      assert sizes[..n + 1][..n] == sizes[..n];
    }
  }

  lemma {:induction false} UsedNone(k: nat)
    ensures Used([], k) == 0
  {
    if k > 0 { UsedNone(k - 1); }
  }

  lemma {:induction false} TwoUsed(sizes: seq<nat>, c: nat, n: nat, m: nat)
    requires 0 < c < |sizes| && n <= |sizes| && Limited(sizes, m) && sizes[c - 1] > 0 && sizes[c] > 0
    requires forall s :: 0 <= s < |sizes| && s != c - 1 && s != c ==> sizes[s] == 0
    ensures Used(sizes[..n], m) == (if n > c - 1 then 1 else 0) + if n > c then 1 else 0
    decreases n
  {
    hide Used;
    if n == 0 {
      assert sizes[..0] == [];
      UsedNone(m);
    } else {
      TwoUsed(sizes, c, n - 1, m);
      UsedSnoc(sizes, n - 1, m);
    }
  }

  lemma {:induction false} UsedParts(sizes: seq<nat>, k: nat, m: nat)
    requires 1 < k <= m
    ensures Used(sizes, m) >= Count(sizes, 1) + Count(sizes, k)
    decreases m
  {
    if k < m {
      UsedParts(sizes, k, m - 1);
    } else {
      DecoderTable.UsedMonotone(sizes, 1, m - 1);
      assert Used(sizes, 1) == Count(sizes, 1) + Used(sizes, 0);
    }
  }

  lemma OneBit(sizes: seq<nat>, s: nat, m: nat)
    requires s < |sizes| && 0 < sizes[s] <= m && Used(sizes, m) == Count(sizes, 1) == 2
    ensures sizes[s] == 1
  {
    if sizes[s] > 1 {
      UsedParts(sizes, sizes[s], m);
      RankBound(sizes, s);
    }
  }

  lemma {:induction false} CountNothing(sizes: seq<nat>, k: nat)
    requires k > 0 && forall s :: 0 <= s < |sizes| ==> sizes[s] == 0
    ensures Count(sizes, k) == 0
    decreases |sizes|
  {
    if |sizes| > 0 { CountNothing(sizes[..|sizes| - 1], k); }
  }

  // Both distances get a code of one bit, and that of the one in use is 0.
  lemma DistancesShort(sizes: seq<nat>, counts: seq<nat>, c: nat)
    requires DistanceCounts(counts, c) && HuffmanTables.SizesFor(sizes, counts, MAX_CODE)
      && HuffmanTables.Dense(sizes, MAX_CODE)
    ensures |sizes| == DIST_SYMBOLS && sizes[c - 1] == sizes[c] == 1 && CodeOf(sizes, c - 1) == 0
      && Count(sizes, 1) == 2
    ensures forall s :: 0 <= s < DIST_SYMBOLS && s != c - 1 && s != c ==> sizes[s] == 0
  {
    hide Used, Count, Space;
    assert sizes[c - 1] > 0 && sizes[c] > 0;
    TwoUsed(sizes, c, DIST_SYMBOLS, MAX_CODE);
    assert sizes[..DIST_SYMBOLS] == sizes;
    TwoShort(sizes, MAX_CODE);
    OneBit(sizes, c - 1, MAX_CODE);
    OneBit(sizes, c, MAX_CODE);
    CountNothing(sizes[..c - 1], 1);
  }

  lemma DistancesDescribed(lits: seq<nat>, sizes: seq<nat>, numLit: nat, numDist: nat, c: nat)
    requires (c == 3 || c == 4) && |sizes| == DIST_SYMBOLS && sizes[c - 1] == sizes[c] == 1 && Count(sizes, 1) == 2
    requires numLit <= |lits| && numDist <= |sizes| && Trailing(sizes, numDist)
    ensures DistancesFit(lits[..numLit] + sizes[..numDist], numLit, c)
  {
    var all := lits[..numLit] + sizes[..numDist];
    SameCount(sizes, numDist, 1);
    hide Count;
    assert all[numLit..] == sizes[..numDist];
    assert all[numLit + (c - 1)] == sizes[c - 1] && all[numLit + c] == sizes[c];
  }

  // --- the code length code ----------------------------------------------------------------------

  lemma {:induction false} OccursAtLeast(s: seq<nat>, c: nat)
    requires c in s
    ensures Occurrences(s, c) > 0
  {
    if s[|s| - 1] != c { OccursAtLeast(s[..|s| - 1], c); }
  }

  lemma {:induction false} OccursAtMost(s: seq<nat>, c: nat)
    ensures Occurrences(s, c) <= |s|
  {
    if |s| > 0 { OccursAtMost(s[..|s| - 1], c); }
  }

  lemma {:induction false} SymbolsShorter(p: seq<nat>)
    ensures |Symbols(p)| <= |p| && (|p| > 0 ==> |Symbols(p)| > 0 && Symbols(p)[0] == p[0])
    decreases |p|
  {
    if |p| > 0 { SymbolsShorter(if p[0] <= 15 || |p| == 1 then p[1..] else p[2..]); }
  }

  ghost predicate ShortLengths(s: seq<nat>) { forall i :: 0 <= i < |s| ==> s[i] <= MAX_CODE }

  lemma {:induction false} ExpandKeeps(p: seq<nat>, out: seq<nat>)
    requires Expand(p, out, true).Some?
    ensures out <= Expand(p, out, true).value
    decreases |p|
  {
    if |p| > 0 {
      if p[0] <= 15 { ExpandKeeps(p[1..], out + [p[0]]); }
          else { ExpandKeeps(p[2..], out + Added(out, p[0], p[1], true).value); }
    }
  }

  lemma ExpandFirst(p: seq<nat>, out: seq<nat>)
    requires |p| > 0 && Expand(p, out, true).Some? && ShortLengths(Expand(p, out, true).value)
    ensures p[0] < CLEN_SYMBOLS && !(12 < p[0] <= 15) && (p[0] > 15 ==> |p| > 1)
    ensures var rest := if p[0] <= 15 || |p| == 1 then p[1..] else p[2..];
      exists out' :: Expand(rest, out', true) == Expand(p, out, true)
  {
    if p[0] <= 15 {
      ExpandKeeps(p[1..], out + [p[0]]);
      assert (out + [p[0]])[|out|] == Expand(p, out, true).value[|out|];
    } else {
      assert Expand(p[2..], out + Added(out, p[0], p[1], true).value, true) == Expand(p, out, true);
    }
  }

  ghost predicate AllCoded(s: seq<nat>, clen: seq<nat>) {
    |clen| == CLEN_SYMBOLS && forall i :: 0 <= i < |s| && s[i] < CLEN_SYMBOLS ==> clen[s[i]] > 0
  }

  lemma {:induction false} PackedSendable(clen: seq<nat>, p: seq<nat>, out: seq<nat>)
    requires Expand(p, out, true).Some? && ShortLengths(Expand(p, out, true).value) && AllCoded(Symbols(p), clen)
    ensures Sendable(clen, p)
    decreases |p|
  {
    hide Expand;
    if |p| > 0 {
      var rest := if p[0] <= 15 || |p| == 1 then p[1..] else p[2..];
      ExpandFirst(p, out);
      var out' :| Expand(rest, out', true) == Expand(p, out, true);
      assert Symbols(p) == [p[0]] + Symbols(rest);
      assert Symbols(p)[0] == p[0];
      assert forall i :: 0 <= i < |Symbols(rest)| ==> Symbols(rest)[i] == Symbols(p)[1 + i];
      PackedSendable(clen, rest, out');
    }
  }

  lemma {:induction false} SumAtMost(s: seq<nat>, m: nat)
    requires forall i :: 0 <= i < |s| ==> s[i] <= m
    ensures Sum(s) <= |s| * m
  {
    if |s| > 0 { SumAtMost(s[1..], m); }
  }

  lemma ClenCountable(freq: seq<nat>, p: seq<nat>)
    requires |freq| == CLEN_SYMBOLS && |p| <= LIT_SYMBOLS + DIST_SYMBOLS
    requires forall c :: 0 <= c < CLEN_SYMBOLS ==> freq[c] == Occurrences(Symbols(p), c)
    ensures HuffmanTables.Countable(freq)
  {
    SymbolsShorter(p);
    forall c | 0 <= c < CLEN_SYMBOLS
      ensures freq[c] <= LIT_SYMBOLS + DIST_SYMBOLS
    {
      OccursAtMost(Symbols(p), c);
    }
    SumAtMost(freq, LIT_SYMBOLS + DIST_SYMBOLS);
  }

  // The code of the code lengths can say the packed sequence.
  lemma ClenDescribes(clen: seq<nat>, freq: seq<nat>, p: seq<nat>, all: seq<nat>)
    requires |freq| == CLEN_SYMBOLS && forall c :: 0 <= c < CLEN_SYMBOLS ==> freq[c] == Occurrences(Symbols(p), c)
    requires HuffmanTables.SizesFor(clen, freq, MAX_CLEN_CODE) && HuffmanTables.Dense(clen, MAX_CLEN_CODE)
    requires Expand(p, [], true) == Some(all) && ShortLengths(all) && |p| > 0
    ensures Usable(clen) && Sendable(clen, p) && Expand(p, [], false) == Some(all)
    ensures |clen| == CLEN_SYMBOLS && forall s :: 0 <= s < CLEN_SYMBOLS ==> clen[s] < 8
  {
    hide Usable, Sendable, Expand, Occurrences, HuffmanTables.Dense;
    Lenient(p, []);
    ExpandFirst(p, []);
    SymbolsShorter(p);
    var all := Symbols(p);
    forall i | 0 <= i < |all| && all[i] < CLEN_SYMBOLS
      ensures clen[all[i]] > 0
    {
      OccursAtLeast(all, all[i]);
    }
    PackedSendable(clen, p, []);
    DenseUsable(clen, MAX_CLEN_CODE, p[0]);
  }

  // --- writing the fields ------------------------------------------------------------------------

  // What remains to be written.
  ghost predicate Left(bits: seq<bool>, rest: seq<bool>, target: seq<bool>) { bits + rest == target }

  lemma LeftNext(bits: seq<bool>, a: seq<bool>, rest: seq<bool>, target: seq<bool>)
    requires Left(bits, a + rest, target)
    ensures Left(bits + a, rest, target) && |bits + a| <= |target|
  {
    Regroup(bits, a, rest);
  }

  method PutField(w: Writer, v: nat, n: nat, ghost rest: seq<bool>, ghost target: seq<bool>) returns (ok: bool)
    requires w.Valid() && w.bitBufSize <= 48 && v < Pow2(n) && 1 <= n <= 16 && Left(w.bits, ToBits(v, n) + rest, target)
    modifies w, w.dst
    ensures ok ==> w.Valid() && w.bitBufSize <= 7 && Left(w.bits, rest, target)
    ensures !ok ==> 8 * w.dst.Length < |target|
  {
    hide ToBits, Pow2, Left;
    LeftNext(w.bits, ToBits(v, n), rest, target);
    ok := w.PutAndWrite(v, n);
  }

  // The code of a symbol.
  method PutCode(w: Writer, codes: array<nat>, s: nat, ghost sizes: seq<nat>, size: nat, ghost rest: seq<bool>,
      ghost target: seq<bool>) returns (ok: bool)
    requires w.Valid() && w.bitBufSize <= 7 && codes != w.dst && s < codes.Length == |sizes| && size == sizes[s]
      && 1 <= size <= 16
    requires codes[s] == Rev(CodeOf(sizes, s), sizes[s]) && Left(w.bits, CodeBits(sizes, s) + rest, target)
    modifies w, w.dst
    ensures ok ==> w.Valid() && w.bitBufSize <= 7 && Left(w.bits, rest, target)
    ensures !ok ==> 8 * w.dst.Length < |target|
  {
    hide ToBits, Pow2, Left, Rev, CodeOf;
    RevBound(CodeOf(sizes, s), sizes[s]);
    ok := PutField(w, codes[s], size, rest, target);
  }

  // --- planning the header -----------------------------------------------------------------------

  // The number of codes to send: up to the last one in use, but at least lo.
  method LastUsed(sizes: array<nat>, hi: nat, lo: nat) returns (n: nat)
    requires 0 < lo <= hi <= sizes.Length
    ensures lo <= n <= hi && (forall s :: n <= s < hi ==> sizes[s] == 0) && (n > lo ==> sizes[n - 1] > 0)
  {
    n := hi;
    while n > lo && sizes[n - 1] == 0
      invariant lo <= n <= hi && forall s :: n <= s < hi ==> sizes[s] == 0
    {
      n := n - 1;
    }
  }

  // The number of code length codes to send, in their order.
  method ClensToSend(clen: array<nat>) returns (n: nat)
    requires clen.Length == CLEN_SYMBOLS
    ensures 4 <= n <= CLEN_SYMBOLS && forall s :: 0 <= s < CLEN_SYMBOLS && Position(s) >= n ==> clen[s] == 0
    ensures n > 4 ==> clen[Zlib.CLEN_ORDER[n - 1]] > 0
  {
    hide Order, Position;
    var i := CLEN_SYMBOLS - 1;
    while i >= 0
      invariant -1 <= i < CLEN_SYMBOLS && forall j :: i < j < CLEN_SYMBOLS ==> Order(j) < CLEN_SYMBOLS && clen[Order(j)] == 0
    {
      OrderInverse(i);
      if clen[Order(i)] != 0 { break; }
      i := i - 1;
    }
    n := if i + 1 < 4 then 4 else i + 1;
    if n > 4 { OrderIs(n - 1); }
    forall s | 0 <= s < CLEN_SYMBOLS && Position(s) >= n ensures clen[s] == 0 { OrderInverse(s); }
  }

  // How often every symbol of the code length code is used.
  ghost function Tallies(p: seq<nat>): (r: seq<nat>)
    ensures |r| == CLEN_SYMBOLS && forall c :: 0 <= c < CLEN_SYMBOLS ==> r[c] == Occurrences(Symbols(p), c)
  {
    seq(CLEN_SYMBOLS, c => if c >= 0 then Occurrences(Symbols(p), c) else 0)
  }

  // A header that sends nothing it need not send: no lengths of unused symbols at the end, the lengths in packed form,
  // and with a code for that form that no code is cheaper than unless one with a code longer than seven bits is.
  ghost predicate Compact(h: Plan, clen: seq<nat>, p: seq<nat>, lits: seq<nat>, dists: seq<nat>) {
    && 257 <= h.numLit <= |lits| && 1 <= h.numDist <= |dists| && 4 <= h.numClen <= CLEN_SYMBOLS == |clen|
    && (h.numLit > 257 ==> lits[h.numLit - 1] > 0) && (h.numDist > 1 ==> dists[h.numDist - 1] > 0)
    && (h.numClen > 4 ==> clen[Zlib.CLEN_ORDER[h.numClen - 1]] > 0)
    && p == PackedForm(lits[..h.numLit] + dists[..h.numDist], 0) && HuffmanTables.Thrifty(clen, Tallies(p), 7)
  }

  lemma IsCompact(h: Plan, clen: seq<nat>, p: seq<nat>, lits: seq<nat>, dists: seq<nat>, freq: seq<nat>)
    requires 257 <= h.numLit <= |lits| && 1 <= h.numDist <= |dists| && 4 <= h.numClen <= CLEN_SYMBOLS == |clen|
    requires (h.numLit > 257 ==> lits[h.numLit - 1] > 0) && (h.numDist > 1 ==> dists[h.numDist - 1] > 0)
      && (h.numClen > 4 ==> clen[Zlib.CLEN_ORDER[h.numClen - 1]] > 0)
    requires p == PackedForm(lits[..h.numLit] + dists[..h.numDist], 0) && HuffmanTables.Thrifty(clen, freq, 7)
    requires |freq| == CLEN_SYMBOLS && forall c :: 0 <= c < CLEN_SYMBOLS ==> freq[c] == Occurrences(Symbols(p), c)
    ensures Compact(h, clen, p, lits, dists)
  {
    hide HuffmanTables.Thrifty, PackedForm, Occurrences, Symbols;
    assert freq == Tallies(p);
  }

  datatype Plan = Plan(numLit: nat, numDist: nat, numClen: nat)

  ghost predicate Planned(h: Plan, clen: seq<nat>, p: seq<nat>, lits: seq<nat>, dists: seq<nat>) {
    Describes(h.numLit, h.numDist, h.numClen, clen, p, lits, dists) && Trailing(lits, h.numLit)
        && Trailing(dists, h.numDist)
  }

  lemma LengthsPack(lits: seq<nat>, dists: seq<nat>, numLit: nat, numDist: nat)
    requires Limited(lits, MAX_CODE) && Limited(dists, MAX_CODE) && numLit <= |lits| && numDist <= |dists|
    ensures Lengths(lits[..numLit] + dists[..numDist]) && ShortLengths(lits[..numLit] + dists[..numDist])
  {
  }

  lemma PackedNotEmpty(p: seq<nat>, all: seq<nat>)
    requires Expand(p, [], true) == Some(all) && |all| > 0
    ensures |p| > 0
  {
  }

  method PlanHeader(lits: array<nat>, dists: array<nat>)
    returns (h: Plan, clen: array<nat>, clenCodes: array<nat>, packed: array<nat>, n: nat)
    requires lits.Length == LIT_SYMBOLS && dists.Length == DIST_SYMBOLS && Limited(lits[..], MAX_CODE)
      && Limited(dists[..], MAX_CODE)
    requires lits[286] == lits[287] == 0 && dists[30] == dists[31] == 0
    ensures fresh(clen) && fresh(clenCodes) && fresh(packed) && n <= packed.Length
      && Planned(h, clen[..], packed[..n], lits[..], dists[..])
          && Compact(h, clen[..], packed[..n], lits[..], dists[..])
    ensures HuffmanTables.CodesFor(clenCodes[..], clen[..], CLEN_SYMBOLS) && n <= LIT_SYMBOLS + DIST_SYMBOLS
  {
    hide Limited, Lengths, ShortLengths, Usable, Sendable, Expand, Occurrences, Symbols, Position, PackedForm, Compact,
      HuffmanTables.Countable, HuffmanTables.Dense, HuffmanTables.CodesFor, HuffmanTables.Thrifty;
    var numLit := LastUsed(lits, 286, 257);
    var numDist := LastUsed(dists, 30, 1);
    ghost var ls, ds := lits[..], dists[..];
    assert Trailing(ls, numLit) && Trailing(ds, numDist);
    var codes := lits[..numLit] + dists[..numDist];
    assert codes == ls[..numLit] + ds[..numDist];
    LengthsPack(ls, ds, numLit, numDist);
    packed := new nat[LIT_SYMBOLS + DIST_SYMBOLS](_ => 0);
    var freq := new nat[CLEN_SYMBOLS](_ => 0);
    n := PackCodeSizes(codes, packed, freq);
    ghost var p := packed[..n];
    ClenCountable(freq[..], p);
    ClenLimit();
    clen, clenCodes := HuffmanTables.OptimizeTable(freq[..], MAX_CLEN_CODE);
    PackedNotEmpty(p, codes);
    ClenDescribes(clen[..], freq[..], p, codes);
    var numClen := ClensToSend(clen);
    h := Plan(numLit, numDist, numClen);
    IsCompact(h, clen[..], p, ls, ds, freq[..]);
  }

  lemma ClenLimit()
    ensures CLEN_SYMBOLS <= Pow2(MAX_CLEN_CODE)
  {
    assert Pow2(4) == 16 && Pow2(5) == 32;
    assert Pow2(7) == 4 * Pow2(5);
  }

  lemma CodeLimit()
    ensures LIT_SYMBOLS <= Pow2(MAX_CODE)
  {
    TableSizeIs();
  }

  // --- writing the header ------------------------------------------------------------------------

  method PutClens(w: Writer, clen: array<nat>, n: nat, ghost rest: seq<bool>,
      ghost target: seq<bool>) returns (ok: bool)
    requires clen != w.dst && clen.Length == CLEN_SYMBOLS && n <= CLEN_SYMBOLS
    requires forall s :: 0 <= s < CLEN_SYMBOLS ==> clen[s] < 8
    requires w.Valid() && w.bitBufSize <= 7 && Left(w.bits, ClenBits(clen[..], n) + rest, target)
    modifies w, w.dst
    ensures ok ==> w.Valid() && w.bitBufSize <= 7 && Left(w.bits, rest, target)
    ensures !ok ==> 8 * w.dst.Length < |target|
  {
    hide Left, ToBits, ClenBits, Order;
    ghost var cs := clen[..];
    var i := 0;
    NoClens(cs, n, rest);
    while i < n
      invariant 0 <= i <= n && clen[..] == cs && w.Valid() && w.bitBufSize <= 7
        && Left(w.bits, ClensFrom(cs, i, n) + rest, target)
    {
      OrderInverse(i);
      FirstClen(cs, i, n, rest);
      EightLimit();
      ok := PutField(w, clen[Order(i)], 3, ClensFrom(cs, i + 1, n) + rest, target);
      if !ok { return; }
      i := i + 1;
    }
    ok := true;
    assert ClensFrom(cs, n, n) + rest == rest;
  }

  lemma EightLimit()
    ensures Pow2(3) == 8
  {
  }

  // The fields from number i on.
  ghost function ClensFrom(clen: seq<nat>, i: nat, n: nat): seq<bool>
    requires |clen| == CLEN_SYMBOLS && i <= n <= CLEN_SYMBOLS
    decreases n - i
  {
    if i == n then []
    else
      OrderInverse(i);
      ToBits(clen[Order(i)], 3) + ClensFrom(clen, i + 1, n)
  }

  lemma {:induction false} ClensJoin(clen: seq<nat>, i: nat, n: nat)
    requires |clen| == CLEN_SYMBOLS && i <= n <= CLEN_SYMBOLS
    ensures ClenBits(clen, n) == ClenBits(clen, i) + ClensFrom(clen, i, n)
    decreases n - i
  {
    hide ToBits, Order;
    if i == n {
      assert ClenBits(clen, n) + [] == ClenBits(clen, n);
    } else {
      OrderInverse(i);
      ClensJoin(clen, i + 1, n);
      Regroup(ClenBits(clen, i), ToBits(clen[Order(i)], 3), ClensFrom(clen, i + 1, n));
    }
  }

  lemma NoClens(clen: seq<nat>, n: nat, rest: seq<bool>)
    requires |clen| == CLEN_SYMBOLS && n <= CLEN_SYMBOLS
    ensures ClenBits(clen, n) + rest == ClensFrom(clen, 0, n) + rest
  {
    hide ToBits, Order;
    ClensJoin(clen, 0, n);
    assert ClenBits(clen, 0) == [];
    assert [] + ClensFrom(clen, 0, n) == ClensFrom(clen, 0, n);
  }

  lemma FirstClen(clen: seq<nat>, i: nat, n: nat, rest: seq<bool>)
    requires |clen| == CLEN_SYMBOLS && i < n <= CLEN_SYMBOLS && Order(i) < CLEN_SYMBOLS
    ensures ClensFrom(clen, i, n) + rest == ToBits(clen[Order(i)], 3) + (ClensFrom(clen, i + 1, n) + rest)
  {
    hide ToBits, Order;
    Regroup(ToBits(clen[Order(i)], 3), ClensFrom(clen, i + 1, n), rest);
  }

  // What is written for the packed sequence from position i on.
  ghost predicate PackedFrom(clen: seq<nat>, p: seq<nat>, i: nat, out: seq<nat>, all: seq<nat>) {
    i <= |p| && Sendable(clen, p[i..]) && Expand(p[i..], out, false) == Some(all)
  }

  // The next symbol and what follows it.
  lemma PackedFirst(clen: seq<nat>, p: seq<nat>, i: nat, out: seq<nat>, all: seq<nat>)
    requires |clen| == CLEN_SYMBOLS && PackedFrom(clen, p, i, out, all) && i < |p|
    ensures p[i] < CLEN_SYMBOLS && clen[p[i]] > 0
    ensures p[i] <= 15 ==> PackedFrom(clen, p, i + 1, out + [p[i]], all)
    ensures p[i] <= 15 ==> PackedBits(clen, p[i..]) == CodeBits(clen, p[i]) + PackedBits(clen, p[i + 1..])
    ensures p[i] > 15 ==>
      && i + 1 < |p| && p[i + 1] < Pow2(ExtraBits(p[i])) && 1 <= ExtraBits(p[i]) <= 16
          && Added(out, p[i], p[i + 1], false).Some?
      && PackedFrom(clen, p, i + 2, out + Added(out, p[i], p[i + 1], false).value, all)
      && PackedBits(clen, p[i..]) == CodeBits(clen,
          p[i]) + (ToBits(p[i + 1], ExtraBits(p[i])) + PackedBits(clen, p[i + 2..]))
  {
    hide ToBits, CodeBits, Pow2, Repeat;
    var q := p[i..];
    assert q[0] == p[i] && q[1..] == p[i + 1..];
    if p[i] > 15 {
      ExpandNeeds(q, out);
      assert q[1] == p[i + 1] && q[2..] == p[i + 2..];
      ExtraLimits(p[i]);
    } else {
      ExpandLiteral(q, out);
    }
  }

  lemma PackedOver(clen: seq<nat>, p: seq<nat>, i: nat)
    requires |clen| == CLEN_SYMBOLS && i == |p|
    ensures PackedBits(clen, p[i..]) == []
  {
  }

  lemma CodeKnown(codes: seq<nat>, sizes: seq<nat>, s: nat)
    requires HuffmanTables.CodesFor(codes, sizes, |sizes|) && s < |sizes| && sizes[s] > 0
    ensures |codes| == |sizes| && codes[s] == Rev(CodeOf(sizes, s), sizes[s])
  {
  }

  // One symbol of the packed sequence with the bits after it; i' is where the next one is.
  method PutPacked(w: Writer, packed: array<nat>, n: nat, i: nat, clen: array<nat>, codes: array<nat>,
      ghost out: seq<nat>,
      ghost all: seq<nat>, ghost target: seq<bool>)
    returns (ok: bool, i': nat, ghost out': seq<nat>)
    requires clen != w.dst && codes != w.dst && packed != w.dst && clen.Length == CLEN_SYMBOLS && i < n <= packed.Length
    requires HuffmanTables.CodesFor(codes[..], clen[..], CLEN_SYMBOLS)
    requires forall s :: 0 <= s < CLEN_SYMBOLS ==> clen[s] < 8
    requires w.Valid() && w.bitBufSize <= 7 && PackedFrom(clen[..], packed[..n], i, out, all)
    requires Left(w.bits, PackedBits(clen[..], packed[..n][i..]), target)
    modifies w, w.dst
    ensures ok ==> w.Valid() && w.bitBufSize <= 7 && i < i' <= n
    ensures ok ==> PackedFrom(clen[..], packed[..n], i', out', all)
    ensures ok ==> Left(w.bits, PackedBits(clen[..], packed[..n][i'..]), target)
    ensures !ok ==> 8 * w.dst.Length < |target|
  {
    hide Left, ToBits, CodeBits, PackedBits, PackedFrom, Pow2, Rev, CodeOf, HuffmanTables.CodesFor;
    ghost var cs, p := clen[..], packed[..n];
    PackedFirst(cs, p, i, out, all);
    var code := packed[i];
    assert code == p[i];
    CodeKnown(codes[..], cs, code);
    if code <= 15 {
      ok := PutCode(w, codes, code, cs, clen[code], PackedBits(cs, p[i + 1..]), target);
      i', out' := i + 1, out + [p[i]];
    } else {
      var extra := ExtraBits(code);
      ok := PutCode(w, codes, code, cs, clen[code], ToBits(p[i + 1], extra) + PackedBits(cs, p[i + 2..]), target);
      i', out' := i + 2, out + Added(out, p[i], p[i + 1], false).value;
      if !ok { return; }
      ok := PutField(w, packed[i + 1], extra, PackedBits(cs, p[i + 2..]), target);
    }
  }

  method PutAllPacked(w: Writer, packed: array<nat>, n: nat, clen: array<nat>, codes: array<nat>, ghost all: seq<nat>,
      ghost target: seq<bool>) returns (ok: bool)
    requires clen != w.dst && codes != w.dst && packed != w.dst && clen.Length == CLEN_SYMBOLS && n <= packed.Length
    requires HuffmanTables.CodesFor(codes[..], clen[..], CLEN_SYMBOLS)
    requires forall s :: 0 <= s < CLEN_SYMBOLS ==> clen[s] < 8
    requires w.Valid() && w.bitBufSize <= 7 && PackedFrom(clen[..], packed[..n], 0, [], all)
    requires Left(w.bits, PackedBits(clen[..], packed[..n]), target)
    modifies w, w.dst
    ensures ok ==> w.Valid() && w.bitBufSize <= 7 && w.bits == target
    ensures !ok ==> 8 * w.dst.Length < |target|
  {
    hide Left, PackedBits, PackedFrom, HuffmanTables.CodesFor;
    ghost var cs, p, out: seq<nat> := clen[..], packed[..n], [];
    var i := 0;
    assert p[0..] == p;
    while i < n
      invariant 0 <= i <= n && clen[..] == cs && packed[..n] == p && w.Valid() && w.bitBufSize <= 7
      invariant PackedFrom(cs, p, i, out, all) && Left(w.bits, PackedBits(cs, p[i..]), target)
      invariant HuffmanTables.CodesFor(codes[..], cs, CLEN_SYMBOLS)
    {
      ok, i, out := PutPacked(w, packed, n, i, clen, codes, out, all, target);
      if !ok { return; }
    }
    ok := true;
    PackedOver(cs, p, i);
    NothingLeftOver(w.bits, target);
  }

  lemma NothingLeftOver(bits: seq<bool>, target: seq<bool>)
    requires Left(bits, [], target)
    ensures bits == target
  {
    assert bits + [] == bits;
  }

  lemma PlanFields(h: Plan, clen: seq<nat>, p: seq<nat>, lits: seq<nat>, dists: seq<nat>)
    requires Planned(h, clen, p, lits, dists)
    ensures 257 <= h.numLit <= 286 && 1 <= h.numDist <= 30 && 4 <= h.numClen <= CLEN_SYMBOLS == |clen|
    ensures |lits| == LIT_SYMBOLS && |dists| == DIST_SYMBOLS && forall s :: 0 <= s < CLEN_SYMBOLS ==> clen[s] < 8
    ensures PackedFrom(clen, p, 0, [], lits[..h.numLit] + dists[..h.numDist])
  {
    hide Sendable, Expand, Usable;
    assert p[0..] == p;
  }

  lemma FieldLimits()
    ensures Pow2(2) == 4 && Pow2(4) == 16 && Pow2(5) == 32
  {
  }

  // The type of the block, and the header.
  method PutHeader(w: Writer, h: Plan, clen: array<nat>, codes: array<nat>, packed: array<nat>, n: nat,
      ghost lits: seq<nat>,
      ghost dists: seq<nat>,
      ghost header: seq<bool>, ghost target: seq<bool>) returns (ok: bool)
    requires clen != w.dst && codes != w.dst && packed != w.dst && clen.Length == CLEN_SYMBOLS && n <= packed.Length
    requires Planned(h, clen[..], packed[..n], lits, dists) && HuffmanTables.CodesFor(codes[..], clen[..], CLEN_SYMBOLS)
    requires w.Valid() && w.bitBufSize <= 48
    requires header == HeaderBits(h.numLit, h.numDist, h.numClen, clen[..], packed[..n])
      && target == w.bits + (ToBits(2, 2) + header)
    modifies w, w.dst
    ensures ok ==> w.Valid() && w.bitBufSize <= 7 && w.bits == target
    ensures !ok ==> 8 * w.dst.Length < |target|
  {
    hide Planned, HuffmanTables.CodesFor, PackedFrom, Left, ToBits, ClenBits, PackedBits, Pow2;
    ghost var cs, p := clen[..], packed[..n];
    PlanFields(h, cs, p, lits, dists);
    FieldLimits();
    ghost var d := ClenBits(cs, h.numClen) + PackedBits(cs, p);
    ghost var c := ToBits(h.numClen - 4, 4) + d;
    ghost var b := ToBits(h.numDist - 1, 5) + c;
    ghost var a := ToBits(h.numLit - 257, 5) + b;
    AllLeft(w.bits, ToBits(2, 2) + a, target);
    ok := PutField(w, 2, 2, a, target);
    if !ok { return; }
    ok := PutField(w, h.numLit - 257, 5, b, target);
    if !ok { return; }
    ok := PutField(w, h.numDist - 1, 5, c, target);
    if !ok { return; }
    ok := PutField(w, h.numClen - 4, 4, d, target);
    if !ok { return; }
    ok := PutClens(w, clen, h.numClen, PackedBits(cs, p), target);
    if !ok { return; }
    ok := PutAllPacked(w, packed, n, clen, codes, lits[..h.numLit] + dists[..h.numDist], target);
  }

  lemma AllLeft(bits: seq<bool>, rest: seq<bool>, target: seq<bool>)
    requires target == bits + rest
    ensures Left(bits, rest, target)
  {
  }

  method CountDistances(c: nat) returns (counts: array<nat>)
    requires c == 3 || c == 4
    ensures fresh(counts) && DistanceCounts(counts[..], c)
  {
    counts := new nat[DIST_SYMBOLS](_ => 0);
    counts[c - 1] := 1;
    counts[c] := 1;
  }

  lemma DistancesCountable(counts: seq<nat>, c: nat)
    requires DistanceCounts(counts, c)
    ensures HuffmanTables.Countable(counts)
  {
    SumAtMost(counts, 1);
  }

  // Any header according to the plan is one for these lengths.
  lemma PlanWorks(h: Plan, clen: seq<nat>, p: seq<nat>, lits: seq<nat>, litCounts: seq<nat>, dists: seq<nat>,
      distCounts: seq<nat>,
      c: nat)
    requires Planned(h, clen, p, lits, dists) && LiteralCode(lits, litCounts) && litCounts[256] > 0
    requires DistanceCounts(distCounts, c) && HuffmanTables.SizesFor(dists, distCounts, MAX_CODE)
      && HuffmanTables.Dense(dists, MAX_CODE)
    ensures |clen| == CLEN_SYMBOLS && 257 <= h.numLit && 1 <= h.numDist && 4 <= h.numClen <= CLEN_SYMBOLS
    ensures HeaderOf(HeaderBits(h.numLit, h.numDist, h.numClen, clen, p), lits, c)
  {
    hide HuffmanTables.Dense, Usable, DistancesFit, HeaderBits, Ahead, ReadHeader, Sendable, Expand, Count, CodeOf;
    DistancesShort(dists, distCounts, c);
    DistancesDescribed(lits, dists, h.numLit, h.numDist, c);
    DenseUsable(lits, MAX_CODE, 256);
    SameUsable(lits, h.numLit);
    var header := HeaderBits(h.numLit, h.numDist, h.numClen, clen, p);
    forall x: nat | Ahead(x, header)
      ensures ReadHeader(c, x) == Some(Sizes(lits, |header|))
    {
      HeaderBack(c, h.numLit, h.numDist, h.numClen, clen, p, lits, dists, x);
    }
  }

  // --- what the header tells any reader ----------------------------------------------------------

  // The header is as short as it can be.
  ghost predicate Brief(header: seq<bool>, t: Zlib.Codes) {
    exists h: Plan, dists: seq<nat>, p: seq<nat> ::
      && Compact(h, t.clen, p, t.lits, dists) && t.dists == dists[..h.numDist]
      && header == HeaderBits(h.numLit, h.numDist, h.numClen, t.clen, p)
  }

  // A stream that starts with the header announces these codes.
  ghost predicate Tells(header: seq<bool>, t: Zlib.Codes) {
    t.len == |header| && forall x: nat :: Ahead(x, header) ==> Zlib.Announces(x, t) && Zlib.Field(x, 0, 5) <= 29
  }

  // Codes that any reader accepts, with which the distance c is the single bit 0.
  ghost predicate Acceptable(t: Zlib.Codes, c: nat) {
    && |t.lits| == LIT_SYMBOLS && t.lits[256] > 0 && Complete(t.clen, 15) && Zlib.Whole(t.lits) && Complete(t.dists, 15)
    && 0 < c <= |t.dists| <= 30 && t.dists[c - 1] == 1 && CodeOf(t.dists, c - 1) == 0
  }

  lemma CompleteBeyond(sizes: seq<nat>, m: nat, k: nat)
    requires Complete(sizes, m) && m <= k
    ensures Complete(sizes, k)
  {
    DecoderTable.SpaceBeyond(sizes, m, k, k);
    DecoderTable.SpaceScale(sizes, m, m, k - m);
    PowAdd(m, k - m);
  }

  lemma DenseWhole(sizes: seq<nat>, s: nat)
    requires Limited(sizes, MAX_CODE) && HuffmanTables.Dense(sizes, MAX_CODE) && s < |sizes| && sizes[s] > 0
    ensures Zlib.Whole(sizes)
  {
    hide Used, Count, Space, Pow2;
    UsedAtLeast(sizes, s, MAX_CODE);
    UsedBeyond(sizes, MAX_CODE, 15);
    if Used(sizes, MAX_CODE) >= 2 { CompleteBeyond(sizes, MAX_CODE, 15); }
  }

  // Packed with one symbol only, the lengths would be all the same.
  lemma {:induction false} OneSymbol(p: seq<nat>, out: seq<nat>, c: nat)
    requires Expand(p, out, false).Some? && c != 16 && forall i :: 0 <= i < |Symbols(p)| ==> Symbols(p)[i] == c
    ensures var all := Expand(p, out, false).value;
      out <= all && forall j :: |out| <= j < |all| ==> all[j] == if c <= 15 then c else 0
    decreases |p|
  {
    if |p| > 0 {
      var rest := if p[0] <= 15 || |p| == 1 then p[1..] else p[2..];
      assert Symbols(p)[0] == p[0];
      assert forall i :: 0 <= i < |Symbols(rest)| ==> Symbols(rest)[i] == Symbols(p)[1 + i];
      if p[0] <= 15 { OneSymbol(rest, out + [p[0]], c); }
          else { OneSymbol(rest, out + Added(out, p[0], p[1], false).value, c); }
    }
  }

  lemma FirstSymbol(p: seq<nat>)
    requires Expand(p, [], false).Some? && |p| > 0
    ensures |Symbols(p)| > 0 && Symbols(p)[0] == p[0] != 16
  {
  }

  // So there are two symbols.
  lemma TwoSymbols(p: seq<nat>, all: seq<nat>, i: nat, j: nat) returns (k: nat)
    requires Expand(p, [], false) == Some(all) && i < |all| && j < |all| && all[i] != all[j]
    ensures 0 < k < |Symbols(p)| && Symbols(p)[k] != Symbols(p)[0]
  {
    hide Expand, Symbols;
    NothingExpands(p);
    FirstSymbol(p);
    if forall i :: 0 <= i < |Symbols(p)| ==> Symbols(p)[i] == p[0] {
      OneSymbol(p, [], p[0]);
      assert false;
    } else {
      k :| 0 <= k < |Symbols(p)| && Symbols(p)[k] != p[0];
    }
  }

  lemma NothingExpands(p: seq<nat>)
    ensures |p| == 0 ==> Expand(p, [], false) == Some([])
  {
  }

  lemma {:induction false} UsedPart(sizes: seq<nat>, n: nat, k: nat)
    requires n <= |sizes|
    ensures Used(sizes[..n], k) <= Used(sizes, k)
    decreases |sizes| - n
  {
    hide Used;
    if n < |sizes| {
      UsedSnoc(sizes, n, k);
      UsedPart(sizes, n + 1, k);
    } else {
      assert sizes[..n] == sizes;
    }
  }

  lemma UsedTwice(sizes: seq<nat>, s: nat, t: nat, k: nat)
    requires s < t < |sizes| && 0 < sizes[s] <= k && 0 < sizes[t] <= k
    ensures Used(sizes, k) >= 2
  {
    hide Used;
    UsedAtLeast(sizes[..t], s, k);
    UsedSnoc(sizes, t, k);
    UsedPart(sizes, t + 1, k);
  }

  lemma {:induction false} SymbolsCoded(clen: seq<nat>, p: seq<nat>, k: nat)
    requires Sendable(clen, p) && |clen| == CLEN_SYMBOLS && k < |Symbols(p)|
    ensures Symbols(p)[k] < CLEN_SYMBOLS && clen[Symbols(p)[k]] > 0
    decreases |p|
  {
    if |p| > 0 {
      var rest := if p[0] <= 15 || |p| == 1 then p[1..] else p[2..];
      if k > 0 { SymbolsCoded(clen, rest, k - 1); }
    }
  }

  lemma ClenWhole(clen: seq<nat>, p: seq<nat>, all: seq<nat>, i: nat, j: nat)
    requires |clen| == CLEN_SYMBOLS && Usable(clen) && Sendable(clen, p) && Expand(p, [], false) == Some(all)
    requires i < |all| && j < |all| && all[i] != all[j] && forall s :: 0 <= s < CLEN_SYMBOLS ==> clen[s] < 8
    ensures Complete(clen, 15)
  {
    hide Expand, Symbols, Sendable, Used, Space, Pow2;
    var k := TwoSymbols(p, all, i, j);
    SymbolsCoded(clen, p, 0);
    SymbolsCoded(clen, p, k);
    var s, t := Symbols(p)[0], Symbols(p)[k];
    if s < t { UsedTwice(clen, s, t, 15); } else { UsedTwice(clen, t, s, 15); }
    CompleteBeyond(clen, TABLE_BITS, 15);
  }

  lemma DistancesWhole(dists: seq<nat>, counts: seq<nat>, c: nat, numDist: nat)
    requires DistanceCounts(counts, c) && HuffmanTables.SizesFor(dists, counts, MAX_CODE)
      && HuffmanTables.Dense(dists, MAX_CODE) && Trailing(dists, numDist)
    ensures 2 < c < numDist && dists[0] == 0 && dists[c - 1] == 1 && Complete(dists[..numDist], 15)
      && CodeOf(dists[..numDist], c - 1) == 0
  {
    hide Used, Count, Space, Pow2;
    DistancesShort(dists, counts, c);
    TwoUsed(dists, c, DIST_SYMBOLS, MAX_CODE);
    assert dists[..DIST_SYMBOLS] == dists;
    CompleteBeyond(dists, MAX_CODE, 15);
    SameSpace(dists, numDist, 15, 15);
    SameCode(dists, numDist, c - 1);
  }

  lemma PlanTells(h: Plan, clen: seq<nat>, p: seq<nat>, lits: seq<nat>, litCounts: seq<nat>, dists: seq<nat>,
      distCounts: seq<nat>, c: nat) returns (t: Zlib.Codes)
    requires Planned(h, clen, p, lits, dists) && LiteralCode(lits, litCounts) && litCounts[256] > 0
    requires DistanceCounts(distCounts, c) && HuffmanTables.SizesFor(dists, distCounts, MAX_CODE)
      && HuffmanTables.Dense(dists, MAX_CODE)
    requires Compact(h, clen, p, lits, dists)
    ensures |clen| == CLEN_SYMBOLS && 257 <= h.numLit && 1 <= h.numDist && 4 <= h.numClen <= CLEN_SYMBOLS
    ensures Tells(HeaderBits(h.numLit, h.numDist, h.numClen, clen, p), t) && t.lits == lits && Acceptable(t, c)
    ensures Brief(HeaderBits(h.numLit, h.numDist, h.numClen, clen, p), t)
  {
    hide HuffmanTables.Dense, Usable, HeaderBits, Ahead, Sendable, Expand, Count, CodeOf, Zlib.Announces, Complete,
      Zlib.Whole, Lower, Upper, Compact;
    var header := HeaderBits(h.numLit, h.numDist, h.numClen, clen, p);
    t := Zlib.Codes(clen, lits, dists[..h.numDist], |header|);
    DistancesWhole(dists, distCounts, c, h.numDist);
    DenseWhole(lits, 256);
    var all := lits[..h.numLit] + dists[..h.numDist];
    assert all[h.numLit] == dists[0] && all[h.numLit + (c - 1)] == dists[c - 1];
    ClenWhole(clen, p, all, h.numLit, h.numLit + (c - 1));
    forall x: nat | Ahead(x, header)
      ensures Zlib.Announces(x, t) && Zlib.Field(x, 0, 5) <= 29
    {
      HeaderTells(h.numLit, h.numDist, h.numClen, clen, p, lits, dists, x);
      FieldsBack(h.numLit, h.numDist, h.numClen, clen, p, x);
      UpperZero(x);
    }
  }

  lemma UnusedEnd(lits: seq<nat>, litCounts: seq<nat>, dists: seq<nat>, distCounts: seq<nat>, c: nat)
    requires LiteralCounts(litCounts) && LiteralCode(lits, litCounts)
    requires DistanceCounts(distCounts, c) && HuffmanTables.SizesFor(dists, distCounts, MAX_CODE)
    ensures |lits| == LIT_SYMBOLS && |dists| == DIST_SYMBOLS && lits[286] == lits[287] == 0
      && dists[30] == dists[31] == 0
    ensures Limited(lits, MAX_CODE) && Limited(dists, MAX_CODE) && litCounts[256] > 0
  {
    hide HuffmanTables.Dense, HuffmanTables.Countable;
    assert litCounts[286] == litCounts[287] == 0;
    assert distCounts[30] == distCounts[31] == 0;
  }

  // Starts a dynamic block: makes the codes for the literals that occur and writes the header. Whoever reads the
  // header learns the lengths of these codes. Room is what it fails for, if it does.
  method StartDynamicBlock(w: Writer, litCounts: array<nat>, c: nat)
    returns (ok: bool, lits: array<nat>, codes: array<nat>, ghost header: seq<bool>, ghost t: Zlib.Codes)
    requires litCounts != w.dst && LiteralCounts(litCounts[..]) && (c == 3 || c == 4) && w.Valid() && w.bitBufSize <= 48
    modifies w, w.dst
    ensures fresh(lits) && fresh(codes) && LiteralCode(lits[..], litCounts[..])
      && HuffmanTables.CodesFor(codes[..], lits[..], LIT_SYMBOLS)
    ensures HeaderOf(header, lits[..], c) && Tells(header, t) && t.lits == lits[..] && Acceptable(t, c)
      && Brief(header, t)
    ensures HuffmanTables.Thrifty(lits[..], litCounts[..], 12)
    ensures ok ==> w.Valid() && w.bitBufSize <= 7 && w.bits == old(w.bits) + (ToBits(2, 2) + header)
    ensures !ok ==> 8 * w.dst.Length < |old(w.bits) + (ToBits(2, 2) + header)|
  {
    hide HuffmanTables.Dense, HuffmanTables.Countable, HuffmanTables.CodesFor, HuffmanTables.SizesFor, DistanceCounts,
      Planned, HeaderOf, Tells, Acceptable, Brief, Compact, HuffmanTables.Thrifty, HeaderBits, ToBits, Pow2, Limited;
    CodeLimit();
    ghost var counts := litCounts[..];
    lits, codes := HuffmanTables.OptimizeTable(litCounts[..], MAX_CODE);
    var distCounts := CountDistances(c);
    DistancesCountable(distCounts[..], c);
    DistanceLimit(distCounts[..], c);
    var dists, distCodes := HuffmanTables.OptimizeTable(distCounts[..], MAX_CODE);
    UnusedEnd(lits[..], counts, dists[..], distCounts[..], c);
    var h, clen, clenCodes, packed, n := PlanHeader(lits, dists);
    PlanWorks(h, clen[..], packed[..n], lits[..], counts, dists[..], distCounts[..], c);
    t := PlanTells(h, clen[..], packed[..n], lits[..], counts, dists[..], distCounts[..], c);
    header := HeaderBits(h.numLit, h.numDist, h.numClen, clen[..], packed[..n]);
    ok := PutHeader(w, h, clen, clenCodes, packed, n, lits[..], dists[..], header, w.bits + (ToBits(2, 2) + header));
  }

  lemma DistanceLimit(counts: seq<nat>, c: nat)
    requires DistanceCounts(counts, c)
    ensures |counts| <= Pow2(MAX_CODE) && |counts| <= 65536
  {
    CodeLimit();
  }
}
