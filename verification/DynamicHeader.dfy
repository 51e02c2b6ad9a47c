// The header of a dynamic block (RFC 1951, section 3.2.7): what is written and what a stream of bits says.
module DynamicHeader {
  import opened Options
  import opened PrefixCodes
  import opened Bits
  import opened CanonicalCodes
  import opened Streams
  import opened CodeLengthRuns
  import DecoderTable
  import Zlib

  const LIT_SYMBOLS := 288
  const DIST_SYMBOLS := 32

  // The order in which the lengths of the code length codes are sent, and its inverse.
  function Order(i: nat): nat {
    if i < 3 then 16 + i else if i == 3 then 0 else if i > 18 then i else if i % 2 == 0 then 8 + (i - 4) / 2
        else 8 - (i - 3) / 2
  }

  function Position(s: nat): nat {
    if 16 <= s <= 18 then s - 16 else if s == 0 then 3 else if s > 18 then s else if s >= 8 then 4 + 2 * (s - 8)
        else 3 + 2 * (8 - s)
  }

  lemma OrderInverse(i: nat)
    requires i < CLEN_SYMBOLS
    ensures Order(i) < CLEN_SYMBOLS && Position(Order(i)) == i && Position(i) < CLEN_SYMBOLS && Order(Position(i)) == i
  {
  }

  // How many bits follow a symbol of the code length code.
  function ExtraBits(c: nat): nat { if c == 16 then 2 else if c == 17 then 3 else if c == 18 then 7 else 0 }

  lemma ExtraLimits(c: nat)
    requires 16 <= c <= 18
    ensures ExtraLimit(c) == Pow2(ExtraBits(c))
  {
    assert Pow2(2) == 4 && Pow2(3) == 8;
    assert Pow2(5) == 32 && Pow2(7) == 128;
  }

  // --- writing -------------------------------------------------------------------------------------------------------

  // The lengths of the first n code length codes.
  function ClenBits(clen: seq<nat>, n: nat): (r: seq<bool>)
    requires |clen| == CLEN_SYMBOLS && n <= CLEN_SYMBOLS
    ensures |r| == 3 * n
  {
    if n == 0 then []
    else
      OrderInverse(n - 1);
      ClenBits(clen, n - 1) + ToBits(clen[Order(n - 1)], 3)
  }

  // A packed sequence of code lengths.
  function PackedBits(clen: seq<nat>, p: seq<nat>): seq<bool>
    requires |clen| == CLEN_SYMBOLS
    decreases |p|
  {
    if |p| == 0 || p[0] >= CLEN_SYMBOLS then []
    else if p[0] <= 15 || |p| == 1 then CodeBits(clen, p[0]) + PackedBits(clen, p[1..])
    else CodeBits(clen, p[0]) + (ToBits(p[1], ExtraBits(p[0])) + PackedBits(clen, p[2..]))
  }

  // The header after the type of the block.
  function HeaderBits(numLit: nat, numDist: nat, numClen: nat, clen: seq<nat>, p: seq<nat>): seq<bool>
    requires |clen| == CLEN_SYMBOLS && numLit >= 257 && numDist >= 1 && 4 <= numClen <= CLEN_SYMBOLS
  {
    ToBits(numLit - 257, 5) + (ToBits(numDist - 1,
        5) + (ToBits(numClen - 4, 4) + (ClenBits(clen, numClen) + PackedBits(clen, p))))
  }

  // --- reading -------------------------------------------------------------------------------------------------------

  function NoLengths(n: nat): (r: seq<nat>)
    ensures |r| == n && forall i :: 0 <= i < n ==> r[i] == 0
  {
    seq(n, _ => 0)
  }

  // The lengths of the code length codes, n of which are there.
  function ReadClens(x: nat, n: nat): (r: seq<nat>)
    requires n <= CLEN_SYMBOLS
    ensures |r| == CLEN_SYMBOLS
  {
    if n == 0 then NoLengths(CLEN_SYMBOLS)
    else
      OrderInverse(n - 1);
      ReadClens(x, n - 1)[Order(n - 1) := Lower(Upper(x, 3 * (n - 1)), 3)]
  }

  datatype Sizes = Sizes(sizes: seq<nat>, len: nat)

  // The next symbol, with the bits after it, and the lengths it adds to out.
  datatype Item = Item(added: seq<nat>, len: nat)

  ghost function ReadItem(clen: seq<nat>, x: nat, out: seq<nat>): (r: Option<Item>)
    ensures r.Some? ==> |r.value.added| > 0
  {
    match Symbol(clen, x)
    case None => None
    case Some(c) =>
      if 12 < c <= 15 then None
      else
        match Added(out, c, Lower(Upper(x, clen[c]), ExtraBits(c)), false)
        case None => None
        case Some(a) => if |a| == 0 then None else Some(Item(a, clen[c] + ExtraBits(c)))
  }

  // The rest of a sequence of total code lengths that starts with out.
  ghost function ReadSizes(clen: seq<nat>, x: nat, total: nat, out: seq<nat>): Option<Sizes>
    decreases total - |out|
  {
    if |out| >= total then Some(Sizes(out, 0))
    else
      match ReadItem(clen, x, out)
      case None => None
      case Some(it) =>
        if |out| + |it.added| > total then None
        else
          match ReadSizes(clen, Upper(x, it.len), total, out + it.added)
          case None => None
          case Some(r) => Some(Sizes(r.sizes, it.len + r.len))
  }

  function OrZero(s: seq<nat>, i: nat): nat { if i < |s| then s[i] else 0 }

  // One or two distance codes of one bit, the first of which is the one for c bytes.
  predicate DistancesFit(sizes: seq<nat>, numLit: nat, c: nat)
    requires numLit <= |sizes|
  {
    var valid := Count(sizes[numLit..], 1);
    1 <= valid <= 2 && c > 0 && OrZero(sizes, numLit + (c - 1)) == 1 && (valid == 2 ==> OrZero(sizes, numLit + c) == 1)
  }

  // The lengths of all literal codes, and the length of the header.
  ghost function ReadHeader(c: nat, x: nat): Option<Sizes> {
    var numLit, numDist, numClen := 257 + Lower(x, 5), 1 + Lower(Upper(x, 5), 5), 4 + Lower(Upper(x, 10), 4);
    if numLit + numDist > LIT_SYMBOLS + DIST_SYMBOLS || numClen > CLEN_SYMBOLS then None
    else
      var clen := ReadClens(Upper(x, 14), numClen);
      if !Usable(clen) then None
      else
        match ReadSizes(clen, Upper(x, 14 + 3 * numClen), numLit + numDist, [])
        case None => None
        case Some(r) => LiteralSizes(c, numLit, r.sizes, 14 + 3 * numClen + r.len)
  }

  ghost function LiteralSizes(c: nat, numLit: nat, sizes: seq<nat>, len: nat): Option<Sizes> {
    if numLit > |sizes| || numLit > LIT_SYMBOLS || !DistancesFit(sizes, numLit, c) || !Usable(sizes[..numLit]) then None
    else Some(Sizes(sizes[..numLit] + NoLengths(LIT_SYMBOLS - numLit), len))
  }

  // --- reading what was written --------------------------------------------------------------------------------------

  lemma {:induction false} ClensBack(clen: seq<nat>, x: nat, n: nat)
    requires |clen| == CLEN_SYMBOLS && n <= CLEN_SYMBOLS && Ahead(x, ClenBits(clen, n)) && forall s ::
      0 <= s < CLEN_SYMBOLS ==> clen[s] < 8
    ensures forall s :: 0 <= s < CLEN_SYMBOLS ==> ReadClens(x, n)[s] == if Position(s) < n then clen[s] else 0
  {
    hide Ahead, Lower, Upper, ClenBits, Order, Position;
    if n > 0 {
      OrderInverse(n - 1);
      ClenField(clen, x, n);
      ClensBack(clen, x, n - 1);
      forall s | 0 <= s < CLEN_SYMBOLS
        ensures ReadClens(x, n)[s] == if Position(s) < n then clen[s] else 0
      {
        OrderInverse(s);
      }
    } else {
      forall s | 0 <= s < CLEN_SYMBOLS ensures Position(s) >= 0 { OrderInverse(s); }
    }
  }

  lemma ClenField(clen: seq<nat>, x: nat, n: nat)
    requires |clen| == CLEN_SYMBOLS && 0 < n <= CLEN_SYMBOLS && Ahead(x, ClenBits(clen, n)) && forall s ::
      0 <= s < CLEN_SYMBOLS ==> clen[s] < 8
    ensures Order(n - 1) < CLEN_SYMBOLS && Ahead(x, ClenBits(clen, n - 1))
      && Lower(Upper(x, 3 * (n - 1)), 3) == clen[Order(n - 1)]
  {
    OrderInverse(n - 1);
    AheadSplit(x, ClenBits(clen, n - 1), ToBits(clen[Order(n - 1)], 3));
    assert Pow2(3) == 8;
    AheadField(Upper(x, 3 * (n - 1)), clen[Order(n - 1)], 3);
  }

  // Every symbol of a packed sequence has a code, and no length is longer than 12.
  ghost predicate Sendable(clen: seq<nat>, p: seq<nat>)
    decreases |p|
  {
    |p| == 0 || (p[0] < CLEN_SYMBOLS == |clen| && clen[p[0]] > 0 && !(12 < p[0] <= 15)
        && Sendable(clen, if p[0] <= 15 || |p| == 1 then p[1..] else p[2..]))
  }

  lemma {:induction false} ExpandGrows(p: seq<nat>, out: seq<nat>, strict: bool)
    requires Expand(p, out, strict).Some?
    ensures |Expand(p, out, strict).value| >= |out| + if |p| > 0 then 1 else 0
    decreases |p|
  {
    if |p| > 0 {
      if p[0] <= 15 { ExpandGrows(p[1..], out + [p[0]], strict); }
          else { ExpandGrows(p[2..], out + Added(out, p[0], p[1], strict).value, strict); }
    }
  }

  lemma ItemBack(clen: seq<nat>, p: seq<nat>, out: seq<nat>, x: nat)
    requires PrefixFree(clen) && |clen| == CLEN_SYMBOLS && |p| > 0 && Sendable(clen, p) && Expand(p, out, false).Some?
      && Ahead(x, PackedBits(clen, p))
    ensures var v, rest := if p[0] <= 15 then 0 else p[1], if p[0] <= 15 then p[1..] else p[2..];
      && (p[0] > 15 ==> |p| > 1) && Added(out, p[0], v, false).Some?
      && ReadItem(clen, x, out) == Some(Item(Added(out, p[0], v, false).value, clen[p[0]] + ExtraBits(p[0])))
      && Ahead(Upper(x, clen[p[0]] + ExtraBits(p[0])), PackedBits(clen, rest))
  {
    hide Ahead, CodeBits, Symbol, PrefixFree, ToBits, Lower, Upper, Expand, Repeat;
    var c := p[0];
    if c > 15 { ExpandNeeds(p, out); }
    if c <= 15 {
      AheadSplit(x, CodeBits(clen, c), PackedBits(clen, p[1..]));
      SymbolAhead(clen, x, c);
    } else {
      var n := ExtraBits(c);
      AheadSplit(x, CodeBits(clen, c), ToBits(p[1], n) + PackedBits(clen, p[2..]));
      SymbolAhead(clen, x, c);
      var y := Upper(x, clen[c]);
      AheadSplit(y, ToBits(p[1], n), PackedBits(clen, p[2..]));
      UpperUpper(x, clen[c], n);
      ExtraLimits(c);
      AheadField(y, p[1], n);
    }
  }

  lemma ExpandNeeds(p: seq<nat>, out: seq<nat>)
    requires Expand(p, out, false).Some? && |p| > 0 && p[0] > 15
    ensures |p| > 1 && Added(out, p[0], p[1], false).Some?
    ensures Expand(p, out, false) == Expand(p[2..], out + Added(out, p[0], p[1], false).value, false)
  {
  }

  lemma ExpandLiteral(p: seq<nat>, out: seq<nat>)
    requires |p| > 0 && p[0] <= 15
    ensures Expand(p, out, false) == Expand(p[1..], out + [p[0]], false)
  {
  }

  // What packing has made of a sequence of code lengths is read back as that sequence.
  lemma {:induction false} SizesBack(clen: seq<nat>, p: seq<nat>, out: seq<nat>, x: nat, total: nat)
    requires PrefixFree(clen) && |clen| == CLEN_SYMBOLS && Sendable(clen, p) && Ahead(x, PackedBits(clen, p))
    requires Expand(p, out, false).Some? && |Expand(p, out, false).value| == total
    ensures ReadSizes(clen, x, total, out) == Some(Sizes(Expand(p, out, false).value, |PackedBits(clen, p)|))
    decreases |p|
  {
    hide Ahead, CodeBits, PrefixFree, ToBits, Upper, ReadItem, Expand;
    ExpandGrows(p, out, false);
    if |p| == 0 {
      ExpandNothing(p, out);
    } else {
      ItemBack(clen, p, out, x);
      if p[0] <= 15 {
        ExpandLiteral(p, out);
        ExpandGrows(p[1..], out + [p[0]], false);
        SizesBack(clen, p[1..], out + [p[0]], Upper(x, clen[p[0]]), total);
      } else {
        ExpandNeeds(p, out);
        var out' := out + Added(out, p[0], p[1], false).value;
        ExpandGrows(p[2..], out', false);
        SizesBack(clen, p[2..], out', Upper(x, clen[p[0]] + ExtraBits(p[0])), total);
      }
    }
  }

  lemma ExpandNothing(p: seq<nat>, out: seq<nat>)
    requires |p| == 0
    ensures Expand(p, out, false) == Some(out)
  {
  }

  // The header that says these lengths.
  ghost predicate Describes(numLit: nat, numDist: nat, numClen: nat, clen: seq<nat>, p: seq<nat>, lits: seq<nat>,
      dists: seq<nat>) {
    && 257 <= numLit <= 286 && 1 <= numDist <= 30 && 4 <= numClen <= CLEN_SYMBOLS == |clen|
    && |lits| == LIT_SYMBOLS && |dists| == DIST_SYMBOLS
    && (forall s :: numLit <= s < LIT_SYMBOLS ==> lits[s] == 0)
    && (forall s :: 0 <= s < CLEN_SYMBOLS ==> clen[s] < 8 && (Position(s) >= numClen ==> clen[s] == 0))
    && Usable(clen) && Sendable(clen, p) && Expand(p, [], false) == Some(lits[..numLit] + dists[..numDist])
  }

  lemma FieldsBack(numLit: nat, numDist: nat, numClen: nat, clen: seq<nat>, p: seq<nat>, x: nat)
    requires |clen| == CLEN_SYMBOLS && 257 <= numLit <= 286 && 1 <= numDist <= 30 && 4 <= numClen <= CLEN_SYMBOLS
    requires Ahead(x, HeaderBits(numLit, numDist, numClen, clen, p))
    ensures numLit == 257 + Lower(x, 5) && numDist == 1 + Lower(Upper(x, 5), 5) && numClen == 4 + Lower(Upper(x, 10), 4)
    ensures Ahead(Upper(x, 14), ClenBits(clen, numClen)) && Ahead(Upper(x, 14 + 3 * numClen), PackedBits(clen, p))
  {
    hide Ahead, ToBits, Lower, Upper, ClenBits, PackedBits, Pow2;
    Powers();
    var d := ClenBits(clen, numClen) + PackedBits(clen, p);
    var c := ToBits(numClen - 4, 4) + d;
    var b := ToBits(numDist - 1, 5) + c;
    AheadSplit(x, ToBits(numLit - 257, 5), b);
    AheadField(x, numLit - 257, 5);
    AheadSplit(Upper(x, 5), ToBits(numDist - 1, 5), c);
    AheadField(Upper(x, 5), numDist - 1, 5);
    UpperUpper(x, 5, 5);
    AheadSplit(Upper(x, 10), ToBits(numClen - 4, 4), d);
    AheadField(Upper(x, 10), numClen - 4, 4);
    UpperUpper(x, 10, 4);
    AheadSplit(Upper(x, 14), ClenBits(clen, numClen), PackedBits(clen, p));
    UpperUpper(x, 14, 3 * numClen);
  }

  lemma Powers()
    ensures Pow2(4) == 16 && Pow2(5) == 32
  {
  }

  lemma UsablePrefixFree(sizes: seq<nat>)
    requires Usable(sizes) && Limited(sizes, TABLE_BITS)
    ensures PrefixFree(sizes)
  {
    DecoderTable.UsableFits(sizes);
  }

  // The header is read back.
  lemma HeaderBack(c: nat, numLit: nat, numDist: nat, numClen: nat, clen: seq<nat>, p: seq<nat>, lits: seq<nat>,
      dists: seq<nat>,
      x: nat)
    requires Describes(numLit, numDist, numClen, clen, p, lits, dists)
      && Ahead(x, HeaderBits(numLit, numDist, numClen, clen, p))
    requires DistancesFit(lits[..numLit] + dists[..numDist], numLit, c) && Usable(lits[..numLit])
    ensures ReadHeader(c, x) == Some(Sizes(lits, |HeaderBits(numLit, numDist, numClen, clen, p)|))
  {
    hide Ahead, ToBits, Lower, Upper, ClenBits, PackedBits, Usable, Sendable, Expand, DistancesFit, ReadSizes, Position;
    FieldsBack(numLit, numDist, numClen, clen, p, x);
    ClensBack(clen, Upper(x, 14), numClen);
    assert ReadClens(Upper(x, 14), numClen) == clen;
    assert Limited(clen, TABLE_BITS);
    UsablePrefixFree(clen);
    var sizes := lits[..numLit] + dists[..numDist];
    SizesBack(clen, p, [], Upper(x, 14 + 3 * numClen), numLit + numDist);
    assert sizes[..numLit] == lits[..numLit];
    assert lits[..numLit] + NoLengths(LIT_SYMBOLS - numLit) == lits;
  }

  // --- what a header says to any reader ------------------------------------------------------------------------------

  lemma OrderIs(i: nat)
    requires i < CLEN_SYMBOLS
    ensures Order(i) == Zlib.CLEN_ORDER[i]
  {
  }

  lemma {:induction false} ReadClensAt(x: nat, n: nat)
    requires n <= CLEN_SYMBOLS
    ensures forall i :: 0 <= i < CLEN_SYMBOLS ==> ReadClens(x, n)[Zlib.CLEN_ORDER[i]] == if i < n
      then Zlib.Field(x, 3 * i, 3) else 0
  {
    hide Lower, Upper, Order, Position;
    if n > 0 {
      ReadClensAt(x, n - 1);
      forall i | 0 <= i < CLEN_SYMBOLS
        ensures ReadClens(x, n)[Zlib.CLEN_ORDER[i]] == if i < n then Zlib.Field(x, 3 * i, 3) else 0
      {
        OrderIs(i);
        OrderIs(n - 1);
        OrderInverse(i);
        OrderInverse(n - 1);
      }
    }
  }

  lemma ClensRead(x: nat, n: nat)
    requires n <= CLEN_SYMBOLS
    ensures Zlib.ClensAre(ReadClens(Upper(x, 14), n), x, n)
  {
    hide Lower, Upper, ReadClens;
    ReadClensAt(Upper(x, 14), n);
    forall i | 0 <= i < n
      ensures Zlib.Field(Upper(x, 14), 3 * i, 3) == Zlib.Field(x, 14 + 3 * i, 3)
    {
      UpperUpper(x, 14, 3 * i);
    }
  }

  lemma RepeatSame(c: nat, n: nat)
    ensures Repeat(c, n) == Zlib.Same(c, n)
  {
  }

  lemma ItemMeans(clen: seq<nat>, x: nat, out: seq<nat>)
    requires ReadItem(clen, x, out).Some?
    ensures Symbol(clen, x).Some?
    ensures var s, it := Symbol(clen, x).value, ReadItem(clen, x, out).value;
      it.len >= clen[s] && Zlib.Repeated(s, Upper(x, clen[s]), out) == Some(Zlib.Lengths(it.added, it.len - clen[s]))
  {
    hide Lower, Upper, Symbol, Repeat;
    var s := Symbol(clen, x).value;
    var y := Upper(x, clen[s]);
    UpperZero(y);
    if s > 15 {
      var v, n := if s == 16 && out != [] then out[|out| - 1] else 0, if s == 18 then 11 else 3;
      RepeatSame(v, n + Lower(y, ExtraBits(s)));
    }
  }

  lemma UpperZero(x: nat)
    ensures Upper(x, 0) == x
  {
  }

  lemma {:induction false} SizesMean(clen: seq<nat>, x: nat, total: nat, out: seq<nat>)
    requires ReadSizes(clen, x, total, out).Some?
    ensures var r := ReadSizes(clen, x, total, out).value;
      Zlib.LengthsFrom(clen, x, total, out) == Some(Zlib.Lengths(r.sizes, r.len))
    decreases total - |out|
  {
    hide Lower, Upper, Symbol, ReadItem, Zlib.Repeated;
    if |out| < total {
      ItemMeans(clen, x, out);
      var it := ReadItem(clen, x, out).value;
      SizesMean(clen, Upper(x, it.len), total, out + it.added);
    }
  }

  lemma UsedSizes(c: nat, numLit: nat, sizes: seq<nat>, len: nat)
    requires LiteralSizes(c, numLit, sizes, len).Some? && 257 <= numLit
    ensures numLit <= |sizes| && numLit <= LIT_SYMBOLS
    ensures var r := LiteralSizes(c, numLit, sizes, len).value;
      |r.sizes| == LIT_SYMBOLS && r.len == len && r.sizes[..numLit] + sizes[numLit..] == sizes
      && forall s :: numLit <= s < LIT_SYMBOLS ==> r.sizes[s] == 0
  {
    hide DistancesFit, Usable;
    var r := LiteralSizes(c, numLit, sizes, len).value;
    assert r.sizes[..numLit] == sizes[..numLit];
  }

  lemma {:induction false} SizesCount(clen: seq<nat>, x: nat, total: nat, out: seq<nat>)
    requires ReadSizes(clen, x, total, out).Some? && |out| <= total
    ensures |ReadSizes(clen, x, total, out).value.sizes| == total
    decreases total - |out|
  {
    hide ReadItem;
    if |out| < total {
      var it := ReadItem(clen, x, out).value;
      SizesCount(clen, Upper(x, it.len), total, out + it.added);
    }
  }

  // The first one-bit distance code is that for c bytes.
  lemma FirstDistance(sizes: seq<nat>, numLit: nat, c: nat)
    requires numLit <= |sizes| && DistancesFit(sizes, numLit, c)
    ensures FirstOneBit(sizes[numLit..], c)
  {
    var dists := sizes[numLit..];
    assert c <= |dists| && dists[c - 1] == 1;
    hide Count;
    RankBound(dists, c - 1);
    if Count(dists, 1) == 2 {
      assert c < |dists| && dists[c] == 1;
      RankBound(dists, c);
      RankRises(dists, c - 1, c);
    }
    FirstCode(dists, c - 1);
  }

  lemma FirstCode(sizes: seq<nat>, s: nat)
    requires s < |sizes| && sizes[s] == 1 && Rank(sizes, s) == 0
    ensures CodeOf(sizes, s) == 0
  {
    hide Count;
  }

  // The distance of c bytes is the single bit 0.
  ghost predicate FirstOneBit(dists: seq<nat>, c: nat) {
    0 < c <= |dists| && dists[c - 1] == 1 && CodeOf(dists, c - 1) == 0
  }

  lemma AcceptedDistances(c: nat, numLit: nat, sizes: seq<nat>, len: nat)
    requires LiteralSizes(c, numLit, sizes, len).Some?
    ensures numLit <= |sizes| && FirstOneBit(sizes[numLit..], c)
  {
    hide DistancesFit, FirstOneBit, Usable;
    FirstDistance(sizes, numLit, c);
  }

  // Every header that is accepted announces the lengths of literal codes that are read from it.
  lemma HeaderMeans(c: nat, x: nat) returns (t: Zlib.Codes)
    requires ReadHeader(c, x).Some?
    ensures Zlib.Announces(x, t) && t.lits == ReadHeader(c, x).value.sizes && t.len == ReadHeader(c, x).value.len
    ensures FirstOneBit(t.dists, c)
  {
    hide Lower, Upper, ReadClens, Usable, ReadSizes, LiteralSizes, FirstOneBit, Zlib.ClensAre, Zlib.LengthsFrom;
    UpperZero(x);
    var numLit, numDist, numClen := 257 + Lower(x, 5), 1 + Lower(Upper(x, 5), 5), 4 + Lower(Upper(x, 10), 4);
    var clen, y := ReadClens(Upper(x, 14), numClen), Upper(x, 14 + 3 * numClen);
    var r := ReadSizes(clen, y, numLit + numDist, []).value;
    ClensRead(x, numClen);
    SizesMean(clen, y, numLit + numDist, []);
    SizesCount(clen, y, numLit + numDist, []);
    UsedSizes(c, numLit, r.sizes, 14 + 3 * numClen + r.len);
    AcceptedDistances(c, numLit, r.sizes, 14 + 3 * numClen + r.len);
    t := Zlib.Codes(clen, ReadHeader(c, x).value.sizes, r.sizes[numLit..], 14 + 3 * numClen + r.len);
  }

  // What is written, too.
  lemma HeaderTells(numLit: nat, numDist: nat, numClen: nat, clen: seq<nat>, p: seq<nat>, lits: seq<nat>,
      dists: seq<nat>, x: nat)
    requires Describes(numLit, numDist, numClen, clen, p, lits, dists)
      && Ahead(x, HeaderBits(numLit, numDist, numClen, clen, p))
    ensures Zlib.Announces(x, Zlib.Codes(clen, lits, dists[..numDist], |HeaderBits(numLit, numDist, numClen, clen, p)|))
  {
    hide Ahead, ToBits, Lower, Upper, ClenBits, PackedBits, Usable, Sendable, Expand, ReadSizes, Position,
      Zlib.ClensAre, Zlib.LengthsFrom;
    UpperZero(x);
    FieldsBack(numLit, numDist, numClen, clen, p, x);
    ClensBack(clen, Upper(x, 14), numClen);
    assert ReadClens(Upper(x, 14), numClen) == clen;
    ClensRead(x, numClen);
    UsablePrefixFree(clen);
    var y := Upper(x, 14 + 3 * numClen);
    SizesBack(clen, p, [], y, numLit + numDist);
    SizesMean(clen, y, numLit + numDist, []);
  }
}
