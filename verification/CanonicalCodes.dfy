// Canonical Huffman codes (RFC 1951, section 3.2.2): the codes that a sequence of code lengths stands for,
// and the decoder's table of all 12-bit windows.
module CanonicalCodes {
  import opened PrefixCodes
  import opened Bits

  // How many symbols have code length k.
  function Count(sizes: seq<nat>, k: nat): nat {
    if sizes == [] then 0 else Count(sizes[..|sizes| - 1], k) + if sizes[|sizes| - 1] == k then 1 else 0
  }

  // The first code of length k.
  function Start(sizes: seq<nat>, k: nat): nat {
    if k <= 1 then 0 else 2 * (Start(sizes, k - 1) + Count(sizes, k - 1))
  }

  function Rank(sizes: seq<nat>, s: nat): nat
    requires s < |sizes|
  {
    Count(sizes[..s], sizes[s])
  }

  // The code of symbol s, read from its first to its last bit as a binary number.
  function CodeOf(sizes: seq<nat>, s: nat): nat
    requires s < |sizes|
  {
    Start(sizes, sizes[s]) + Rank(sizes, s)
  }

  // The share of the code space that codes of lengths 1..k take, in units of 2^-m.
  ghost function Space(sizes: seq<nat>, k: nat, m: nat): nat
    requires k <= m
  {
    if k == 0 then 0 else Count(sizes, k) * Pow2(m - k) + Space(sizes, k - 1, m)
  }

  ghost predicate Limited(sizes: seq<nat>, m: nat) { forall s :: 0 <= s < |sizes| ==> sizes[s] <= m }

  // There are no more codes than fit; exactly as many.
  ghost predicate Fits(sizes: seq<nat>, m: nat) { Limited(sizes, m) && Space(sizes, m, m) <= Pow2(m) }
  ghost predicate Complete(sizes: seq<nat>, m: nat) { Limited(sizes, m) && Space(sizes, m, m) == Pow2(m) }

  // --- counting ----------------------------------------------------------------------------------------------

  lemma {:induction false} CountConcat(a: seq<nat>, b: seq<nat>, k: nat)
    ensures Count(a + b, k) == Count(a, k) + Count(b, k)
  {
    if b == [] {
      assert a + b == a;
    } else {
      assert (a + b)[..|a + b| - 1] == a + b[..|b| - 1];
      CountConcat(a, b[..|b| - 1], k);
    }
  }

  lemma RankBound(sizes: seq<nat>, s: nat)
    requires s < |sizes|
    ensures Rank(sizes, s) < Count(sizes, sizes[s])
  {
    RankRises(sizes, s, |sizes|);
    assert sizes[..|sizes|] == sizes;
  }

  lemma RankRises(sizes: seq<nat>, s: nat, t: nat)
    requires s < t <= |sizes|
    ensures Rank(sizes, s) + 1 <= Count(sizes[..t], sizes[s])
  {
    assert sizes[..t] == sizes[..s] + [sizes[s]] + sizes[s + 1..t];
    CountConcat(sizes[..s], [sizes[s]], sizes[s]);
    CountConcat(sizes[..s] + [sizes[s]], sizes[s + 1..t], sizes[s]);
    assert [sizes[s]][..0] == [];
  }

  lemma {:induction false} Nth(sizes: seq<nat>, k: nat, r: nat) returns (s: nat)
    requires r < Count(sizes, k)
    ensures s < |sizes| && sizes[s] == k && Rank(sizes, s) == r
  {
    var n := |sizes| - 1;
    if r < Count(sizes[..n], k) {
      s := Nth(sizes[..n], k, r);
      assert sizes[..n][..s] == sizes[..s];
    } else {
      s := n;
    }
  }

  lemma {:induction false} SpaceMonotone(sizes: seq<nat>, j: nat, k: nat, m: nat)
    requires j <= k <= m
    ensures Space(sizes, j, m) <= Space(sizes, k, m)
  {
    if j < k { SpaceMonotone(sizes, j, k - 1, m); }
  }

  // Where the codes of length k start, as a position in a space of 2^m.
  lemma {:induction false} StartSpace(sizes: seq<nat>, k: nat, m: nat)
    requires 1 <= k <= m
    ensures Start(sizes, k) * Pow2(m - k) == Space(sizes, k - 1, m)
  {
    if k > 1 {
      StartSpace(sizes, k - 1, m);
      var a, b, p := Start(sizes, k - 1), Count(sizes, k - 1), Pow2(m - k);
      assert Pow2(m - (k - 1)) == 2 * p;
      Doubled(a, b, p);
    }
  }

  lemma Doubled(a: nat, b: nat, p: nat)
    ensures (2 * (a + b)) * p == a * (2 * p) + b * (2 * p)
  {
  }

  // --- intervals -----------------------------------------------------------------------------------------------

  // All m-bit words that start with the code of symbol s, as an interval.
  ghost function Low(sizes: seq<nat>, s: nat, m: nat): nat
    requires s < |sizes| && sizes[s] <= m
  {
    CodeOf(sizes, s) * Pow2(m - sizes[s])
  }

  ghost predicate Within(sizes: seq<nat>, s: nat, m: nat, x: nat)
    requires s < |sizes| && sizes[s] <= m
  {
    Low(sizes, s, m) <= x < Low(sizes, s, m) + Pow2(m - sizes[s])
  }

  lemma LowIs(sizes: seq<nat>, s: nat, m: nat)
    requires s < |sizes| && 0 < sizes[s] <= m
    ensures Low(sizes, s, m) == Space(sizes, sizes[s] - 1, m) + Rank(sizes, s) * Pow2(m - sizes[s])
    ensures Low(sizes, s, m) + Pow2(m - sizes[s]) <= Space(sizes, sizes[s], m)
  {
    var k := sizes[s];
    var p := Pow2(m - k);
    StartSpace(sizes, k, m);
    AddMultiples(Start(sizes, k), Rank(sizes, s), p);
    RankBound(sizes, s);
    MulMono(Rank(sizes, s) + 1, Count(sizes, k), p);
    AddMultiples(Rank(sizes, s), 1, p);
  }

  // The codes are prefix-free: no two intervals meet.
  lemma Disjoint(sizes: seq<nat>, s: nat, t: nat, m: nat, x: nat)
    requires s < |sizes| && t < |sizes| && 0 < sizes[s] <= m && 0 < sizes[t] <= m
    requires Within(sizes, s, m, x) && Within(sizes, t, m, x)
    ensures s == t
  {
    if sizes[s] < sizes[t] {
      Ordered(sizes, s, t, m);
    } else if sizes[t] < sizes[s] {
      Ordered(sizes, t, s, m);
    } else if s < t {
      SameLength(sizes, s, t, m);
    } else if t < s {
      SameLength(sizes, t, s, m);
    }
  }

  lemma Ordered(sizes: seq<nat>, s: nat, t: nat, m: nat)
    requires s < |sizes| && t < |sizes| && 0 < sizes[s] < sizes[t] <= m
    ensures Low(sizes, s, m) + Pow2(m - sizes[s]) <= Low(sizes, t, m)
  {
    LowIs(sizes, s, m);
    LowIs(sizes, t, m);
    SpaceMonotone(sizes, sizes[s], sizes[t] - 1, m);
  }

  lemma SameLength(sizes: seq<nat>, s: nat, t: nat, m: nat)
    requires s < t < |sizes| && 0 < sizes[s] == sizes[t] <= m
    ensures Low(sizes, s, m) + Pow2(m - sizes[s]) <= Low(sizes, t, m)
  {
    var p := Pow2(m - sizes[s]);
    RankRises(sizes, s, t);
    MulMono(CodeOf(sizes, s) + 1, CodeOf(sizes, t), p);
    AddMultiples(CodeOf(sizes, s), 1, p);
  }

  // Every position in the occupied space belongs to a symbol.
  lemma {:induction false} Occupied(sizes: seq<nat>, k: nat, m: nat, x: nat) returns (s: nat)
    requires k <= m && x < Space(sizes, k, m)
    ensures s < |sizes| && 0 < sizes[s] <= m && Within(sizes, s, m, x)
  {
    if x < Space(sizes, k - 1, m) {
      s := Occupied(sizes, k - 1, m, x);
    } else {
      var p := Pow2(m - k);
      var d := x - Space(sizes, k - 1, m);
      var r := Quotient(d, p);
      if r >= Count(sizes, k) { MulMono(Count(sizes, k), r, p); }
      s := Nth(sizes, k, r);
      LowIs(sizes, s, m);
    }
  }

  lemma {:induction false} Quotient(d: nat, p: nat) returns (r: nat)
    requires p > 0
    ensures r * p <= d < r * p + p
    decreases d
  {
    if d < p {
      r := 0;
    } else {
      r := Quotient(d - p, p);
      AddMultiples(r, 1, p);
      r := r + 1;
    }
  }

  // Codes fit their lengths.
  lemma CodeBound(sizes: seq<nat>, s: nat, m: nat)
    requires s < |sizes| && 0 < sizes[s] <= m && Space(sizes, m, m) <= Pow2(m)
    ensures CodeOf(sizes, s) < Pow2(sizes[s])
  {
    var k := sizes[s];
    LowIs(sizes, s, m);
    SpaceMonotone(sizes, k, m, m);
    PowAdd(k, m - k);
    if CodeOf(sizes, s) >= Pow2(k) { MulMono(Pow2(k), CodeOf(sizes, s), Pow2(m - k)); }
  }

  // --- windows -------------------------------------------------------------------------------------------------

  // A window, of m bits in order of arrival from the lowest up, starts with the code of s.
  predicate Matches(sizes: seq<nat>, w: nat, s: nat) {
    s < |sizes| && sizes[s] > 0 && Lower(w, sizes[s]) == Rev(CodeOf(sizes, s), sizes[s])
  }

  lemma MatchesWithin(sizes: seq<nat>, w: nat, s: nat, m: nat)
    requires Fits(sizes, m) && s < |sizes| && sizes[s] > 0
    ensures Matches(sizes, w, s) <==> Within(sizes, s, m, Rev(w, m))
  {
    var k, c := sizes[s], CodeOf(sizes, s);
    CodeBound(sizes, s, m);
    RevSplit(w, k, m - k);
    var hi, lo := Rev(w, k), Rev(Upper(w, k), m - k);
    RevBound(Upper(w, k), m - k);
    RevBound(w, k);
    SameReversed(w, c, k);
    assert Matches(sizes, w, s) <==> hi == c;
    hide Rev, Matches;
    Digits(hi, c, lo, Pow2(m - k));
  }

  lemma SameReversed(w: nat, c: nat, k: nat)
    requires c < Pow2(k)
    ensures Lower(w, k) == Rev(c, k) <==> Rev(w, k) == c
  {
    RevTwice(w, k);
    RevTwice(c, k);
    LowerId(c, k);
    RevLower(w, k);
  }

  lemma Digits(a: nat, b: nat, lo: nat, p: nat)
    requires lo < p
    ensures a == b <==> b * p <= a * p + lo < b * p + p
  {
    AddMultiples(a, 1, p);
    AddMultiples(b, 1, p);
    if a < b { MulMono(a + 1, b, p); }
    if b < a { MulMono(b + 1, a, p); }
  }

  // No window starts with two codes ...
  lemma MatchUnique(sizes: seq<nat>, w: nat, s: nat, t: nat, m: nat)
    requires Fits(sizes, m) && Matches(sizes, w, s) && Matches(sizes, w, t)
    ensures s == t
  {
    MatchesWithin(sizes, w, s, m);
    MatchesWithin(sizes, w, t, m);
    Disjoint(sizes, s, t, m, Rev(w, m));
  }

  // ... and with a complete code every window starts with one.
  lemma MatchExists(sizes: seq<nat>, w: nat, m: nat) returns (s: nat)
    requires Complete(sizes, m)
    ensures Matches(sizes, w, s)
  {
    RevBound(w, m);
    s := Occupied(sizes, m, m, Rev(w, m));
    MatchesWithin(sizes, w, s, m);
  }

  // --- the decoder's table -------------------------------------------------------------------------------------

  const TABLE_BITS := 12
  const TABLE_SIZE := 4096

  lemma TableSizeIs()
    ensures Pow2(TABLE_BITS) == TABLE_SIZE && Pow2(9) == 512 && Pow2(4) == 16
  {
    assert Pow2(3) == 8 && Pow2(6) == 64;
  }

  // A symbol below 512 and its length packed into one entry.
  function Entry(s: nat, len: nat): nat { s + 512 * len }

  // Every window leads to the symbol it starts with; a window that starts with no code leads to 0.
  ghost predicate Lookup(sizes: seq<nat>, table: seq<nat>) {
    && |table| == TABLE_SIZE
    && (forall w: nat, s: nat :: w < TABLE_SIZE && Matches(sizes, w, s) ==> table[w] == Entry(s, sizes[s]))
    && (forall w: nat :: w < TABLE_SIZE && table[w] != 0 ==> exists s: nat :: Matches(sizes, w, s))
  }

  // A code the decoder accepts: a complete one, or a single symbol.
  ghost predicate Usable(sizes: seq<nat>) { Complete(sizes, TABLE_BITS) || Used(sizes, 15) == 1 }

  // How many symbols have lengths 1..k.
  ghost function Used(sizes: seq<nat>, k: nat): nat { if k == 0 then 0 else Count(sizes, k) + Used(sizes, k - 1) }
}
