// Streams of bits as numbers: the bits of a stream x are those of x from the lowest up, followed by zeros.
module Streams {
  import opened Options
  import opened PrefixCodes
  import opened Bits
  import opened CanonicalCodes

  // Bytes as one number, the first byte lowest.
  function Number(s: seq<nat>): nat { if |s| == 0 then 0 else s[0] + 256 * Number(s[1..]) }

  // The stream x starts with these bits.
  ghost predicate Ahead(x: nat, bits: seq<bool>) { ToBits(x, |bits|) == bits }

  lemma AheadSplit(x: nat, a: seq<bool>, b: seq<bool>)
    ensures Ahead(x, a + b) <==> Ahead(x, a) && Ahead(Upper(x, |a|), b)
  {
    ToBitsSplit(x, |a|, |b|);
    var p, q := ToBits(x, |a|), ToBits(Upper(x, |a|), |b|);
    hide ToBits;
    assert |p| == |a|;
    if p + q == a + b { Halves(p, q, a, b); }
  }

  lemma Halves(p: seq<bool>, q: seq<bool>, a: seq<bool>, b: seq<bool>)
    requires |p| == |a| && p + q == a + b
    ensures p == a && q == b
  {
    assert p == (p + q)[..|p|] && a == (a + b)[..|a|];
    assert q == (p + q)[|p|..] && b == (a + b)[|a|..];
  }

  // A field of n bits.
  lemma AheadField(x: nat, v: nat, n: nat)
    requires Ahead(x, ToBits(v, n)) && v < Pow2(n)
    ensures Lower(x, n) == v
  {
    ValueToBits(x, n);
    ValueToBits(v, n);
    LowerId(v, n);
  }

  // --- codes ---------------------------------------------------------------------------------------------------------

  // The code of a symbol, in the order in which its bits are written.
  function CodeBits(sizes: seq<nat>, s: nat): (r: seq<bool>)
    requires s < |sizes|
    ensures |r| == sizes[s]
  {
    ToBits(Rev(CodeOf(sizes, s), sizes[s]), sizes[s])
  }

  lemma AheadCode(sizes: seq<nat>, x: nat, s: nat)
    requires s < |sizes| && sizes[s] > 0 && Ahead(x, CodeBits(sizes, s))
    ensures Matches(sizes, x, s)
  {
    RevBound(CodeOf(sizes, s), sizes[s]);
    AheadField(x, Rev(CodeOf(sizes, s), sizes[s]), sizes[s]);
  }

  // The symbol whose code the stream starts with.
  ghost function Symbol(sizes: seq<nat>, x: nat): (r: Option<nat>)
    ensures r.Some? ==> Matches(sizes, x, r.value)
    ensures r.None? ==> forall s: nat :: !Matches(sizes, x, s)
  {
    if exists s: nat :: Matches(sizes, x, s) then
      var s: nat :| Matches(sizes, x, s);
      Some(s)
    else None
  }

  // At most one code starts a stream.
  ghost predicate PrefixFree(sizes: seq<nat>) { exists m: nat :: Fits(sizes, m) }

  lemma SymbolIs(sizes: seq<nat>, x: nat, s: nat)
    requires PrefixFree(sizes) && Matches(sizes, x, s)
    ensures Symbol(sizes, x) == Some(s) && s < |sizes| && sizes[s] > 0
  {
    var m: nat :| Fits(sizes, m);
    MatchUnique(sizes, x, s, Symbol(sizes, x).value, m);
  }

  lemma SymbolAhead(sizes: seq<nat>, x: nat, s: nat)
    requires PrefixFree(sizes) && s < |sizes| && sizes[s] > 0 && Ahead(x, CodeBits(sizes, s))
    ensures Symbol(sizes, x) == Some(s)
  {
    AheadCode(sizes, x, s);
    SymbolIs(sizes, x, s);
  }
}
