// Building the decoder's table.
module DecoderTable {
  import opened PrefixCodes
  import opened Bits
  import opened CanonicalCodes

  const MAX_SYMBOLS := 288

  lemma {:induction false} SpaceScale(sizes: seq<nat>, k: nat, m: nat, e: nat)
    requires k <= m
    ensures Space(sizes, k, m + e) == Space(sizes, k, m) * Pow2(e)
  {
    if k > 0 {
      SpaceScale(sizes, k - 1, m, e);
      PowAdd(m - k, e);
      AssocAdd(Count(sizes, k), Pow2(m - k), Space(sizes, k - 1, m), Pow2(e));
    }
  }

  lemma {:induction false} NoneLonger(sizes: seq<nat>, m: nat, k: nat)
    requires Limited(sizes, m) && m < k
    ensures Count(sizes, k) == 0
  {
    if sizes != [] { NoneLonger(sizes[..|sizes| - 1], m, k); }
  }

  lemma {:induction false} SpaceBeyond(sizes: seq<nat>, m: nat, k: nat, u: nat)
    requires Limited(sizes, m) && m <= k <= u
    ensures Space(sizes, k, u) == Space(sizes, m, u)
  {
    if k > m {
      NoneLonger(sizes, m, k);
      SpaceBeyond(sizes, m, k - 1, u);
    }
  }

  // The running total of the decoder says whether the code is complete.
  lemma TotalComplete(sizes: seq<nat>)
    requires Limited(sizes, TABLE_BITS)
    ensures Start(sizes, 16) == 0x10000 <==> Complete(sizes, TABLE_BITS)
  {
    StartSpace(sizes, 16, 16);
    SpaceBeyond(sizes, TABLE_BITS, 15, 16);
    SpaceScale(sizes, TABLE_BITS, TABLE_BITS, 4);
    TableSizeIs();
    assert Pow2(0) == 1;
    hide Start, Space, Pow2;
  }

  lemma {:induction false} OneUsed(sizes: seq<nat>, k: nat, m: nat)
    requires k <= m && Used(sizes, k) <= 1
    ensures Space(sizes, k, m) <= Pow2(m)
    ensures Used(sizes, k) == 0 ==> Space(sizes, k, m) == 0
  {
    if k > 0 {
      OneUsed(sizes, k - 1, m);
      PowLess(m - k, m);
      MulMono(Count(sizes, k), 1, Pow2(m - k));
    }
  }

  lemma {:induction false} PowLess(a: nat, b: nat)
    requires a <= b
    ensures Pow2(a) <= Pow2(b)
  {
    if a < b { PowLess(a, b - 1); }
  }

  lemma {:induction false} UsedMonotone(sizes: seq<nat>, j: nat, k: nat)
    requires j <= k
    ensures Used(sizes, j) <= Used(sizes, k)
  {
    if j < k { UsedMonotone(sizes, j, k - 1); }
  }

  lemma UsableFits(sizes: seq<nat>)
    requires Usable(sizes) && Limited(sizes, TABLE_BITS)
    ensures Fits(sizes, TABLE_BITS)
  {
    if !Complete(sizes, TABLE_BITS) {
      UsedMonotone(sizes, TABLE_BITS, 15);
      OneUsed(sizes, TABLE_BITS, TABLE_BITS);
    }
  }

  // --- the steps ---------------------------------------------------------------------------------------------------

  method CountSizes(sizes: seq<nat>) returns (numCodes: array<nat>)
    requires Limited(sizes, 15)
    ensures fresh(numCodes) && numCodes.Length == 16 && forall k :: 0 <= k < 16 ==> numCodes[k] == Count(sizes, k)
  {
    numCodes := new nat[16](_ => 0);
    var i := 0;
    while i < |sizes|
      invariant 0 <= i <= |sizes|
      invariant forall k :: 0 <= k < 16 ==> numCodes[k] == Count(sizes[..i], k)
    {
      assert sizes[..i + 1][..i] == sizes[..i];
      numCodes[sizes[i]] := numCodes[sizes[i]] + 1;
      i := i + 1;
    }
    assert sizes[..i] == sizes;
  }

  lemma StartStep(sizes: seq<nat>, i: nat)
    requires i > 0
    ensures Start(sizes, i + 1) == (Start(sizes, i) + Count(sizes, i)) * 2
  {
  }

  method FirstCodes(sizes: seq<nat>, numCodes: array<nat>) returns (nextCode: array<nat>, total: nat)
    requires numCodes.Length == 16 && forall k :: 0 <= k < 16 ==> numCodes[k] == Count(sizes, k)
    ensures fresh(nextCode) && nextCode.Length == 17 && forall k :: 0 <= k <= 16 ==> nextCode[k] == Start(sizes, k)
    ensures total == Start(sizes, 16)
  {
    assert Start(sizes, 0) == Start(sizes, 1) == 0;
    hide Count, Start;
    nextCode := new nat[17];
    nextCode[0], nextCode[1] := 0, 0;
    total := 0;
    var i := 1;
    while i <= 15
      invariant 1 <= i <= 16 && total == Start(sizes, i)
      invariant forall k :: 0 <= k <= i ==> nextCode[k] == Start(sizes, k)
    {
      StartStep(sizes, i);
      total := (total + numCodes[i]) * 2;
      nextCode[i + 1] := total;
      i := i + 1;
    }
  }

  // Is there exactly one code?
  method OnlyOne(sizes: seq<nat>, numCodes: array<nat>) returns (one: bool)
    requires numCodes.Length == 16 && forall k :: 0 <= k < 16 ==> numCodes[k] == Count(sizes, k)
    ensures one <==> Used(sizes, 15) == 1
  {
    var j, i := 0, 15;
    while i != 0
      invariant 0 <= i <= 15 && j == Used(sizes, 15) - Used(sizes, i) <= 1
    {
      j := j + numCodes[i];
      if j > 1 {
        UsedMonotone(sizes, i - 1, 15);
        return false;
      }
      i := i - 1;
    }
    return j == 1;
  }

  method AssignCodes(sizes: seq<nat>, nextCode: array<nat>) returns (codes: array<nat>)
    requires |sizes| <= MAX_SYMBOLS && nextCode.Length == 17 && Limited(sizes, 15)
    requires forall k :: 0 <= k <= 16 ==> nextCode[k] == Start(sizes, k)
    modifies nextCode
    ensures fresh(codes) && codes.Length == MAX_SYMBOLS && forall s :: 0 <= s < |sizes| ==> codes[s] == CodeOf(sizes, s)
  {
    codes := new nat[MAX_SYMBOLS](_ => 0);
    var i := 0;
    while i < |sizes|
      invariant 0 <= i <= |sizes|
      invariant forall k :: 0 <= k <= 16 ==> nextCode[k] == Start(sizes, k) + Count(sizes[..i], k)
      invariant forall s :: 0 <= s < i ==> codes[s] == CodeOf(sizes, s)
    {
      assert sizes[..i + 1][..i] == sizes[..i];
      codes[i] := nextCode[sizes[i]];
      nextCode[sizes[i]] := nextCode[sizes[i]] + 1;
      i := i + 1;
    }
  }

  // The windows that start with code c of length k are c, c + 2^k, c + 2 * 2^k and so on.
  lemma NextWindow(c: nat, k: nat, x: nat, w: nat)
    requires c < Pow2(k) && Lower(x, k) == c && x <= w < x + Pow2(k) && Lower(w, k) == c
    ensures w == x
  {
    LowerUpper(x, k);
    LowerUpper(w, k);
    var p := Pow2(k);
    if Upper(w, k) < Upper(x, k) { MulMono(Upper(w, k), Upper(x, k), p); }
    if Upper(w, k) > Upper(x, k) { MulMono(Upper(x, k) + 1, Upper(w, k), p); AddMultiples(Upper(x, k), 1, p); }
  }

  lemma StepWindow(x: nat, k: nat)
    ensures Lower(x + Pow2(k), k) == Lower(x, k)
  {
    LowerUpper(x, k);
    AddMultiples(Upper(x, k), 1, Pow2(k));
    Joined(Lower(x, k), Upper(x, k) + 1, k);
  }

  // Writes one entry to every window that starts with the reversed code c of length k.
  method FillWindows(table: array<nat>, c: nat, k: nat, entry: nat)
    requires table.Length == TABLE_SIZE && c < Pow2(k)
    modifies table
    ensures forall w :: 0 <= w < TABLE_SIZE ==> table[w] == if Lower(w, k) == c then entry else old(table[w])
  {
    var x := c;
    LowerId(c, k);
    forall w: nat | w < c
      ensures Lower(w, k) != c
    {
      LowerId(w, k);
    }
    while x < TABLE_SIZE
      invariant c <= x && Lower(x, k) == c
      invariant forall w :: 0 <= w < TABLE_SIZE ==> table[w] == if w < x && Lower(w, k) == c then entry
        else old(table[w])
      invariant forall w: nat :: w < c ==> Lower(w, k) != c
      decreases TABLE_SIZE - x
    {
      table[x] := entry;
      StepWindow(x, k);
      forall w: nat | x < w < x + Pow2(k)
        ensures Lower(w, k) != c
      {
        if Lower(w, k) == c { NextWindow(c, k, x, w); }
      }
      x := x + Pow2(k);
    }
  }

  // The table while the first n symbols have been entered.
  ghost predicate Partial(sizes: seq<nat>, table: seq<nat>, n: nat) {
    && |table| == TABLE_SIZE
    && (forall w: nat, s: nat :: w < TABLE_SIZE && s < n && Matches(sizes, w, s) ==> table[w] == Entry(s, sizes[s]))
    && (forall w: nat :: w < TABLE_SIZE && table[w] != 0 ==> exists s: nat :: s < n && Matches(sizes, w, s))
  }

  lemma OneMore(sizes: seq<nat>, before: seq<nat>, after: seq<nat>, n: nat)
    requires Fits(sizes, TABLE_BITS) && n < |sizes| && Partial(sizes, before, n) && |after| == TABLE_SIZE
    requires if sizes[n] == 0 then after == before
             else forall w :: 0 <= w < TABLE_SIZE ==>
                    after[w] == if Lower(w, sizes[n]) == Rev(CodeOf(sizes, n), sizes[n]) then Entry(n, sizes[n])
                        else before[w]
    ensures Partial(sizes, after, n + 1)
  {
    hide Lower, Rev, CodeOf, Fits;
    forall w: nat, s: nat | w < TABLE_SIZE && s < n + 1 && Matches(sizes, w, s)
      ensures after[w] == Entry(s, sizes[s])
    {
      if s < n && Matches(sizes, w, n) { MatchUnique(sizes, w, s, n, TABLE_BITS); }
    }
    forall w: nat | w < TABLE_SIZE && after[w] != 0
      ensures exists s: nat :: s < n + 1 && Matches(sizes, w, s)
    {
      if after[w] != before[w] { assert Matches(sizes, w, n); }
    }
  }

  // Accepts complete codes and codes of a single symbol, and then enters every code into the table.
  method BuildDecoderTable(sizes: seq<nat>, table: array<nat>) returns (ok: bool)
    requires |sizes| <= MAX_SYMBOLS && Limited(sizes, TABLE_BITS) && table.Length == TABLE_SIZE
    modifies table
    ensures ok <==> Usable(sizes)
    ensures ok ==> Lookup(sizes, table[..])
    ensures !ok ==> table[..] == old(table[..])
  {
    var numCodes := CountSizes(sizes);
    var nextCode, total := FirstCodes(sizes, numCodes);
    TotalComplete(sizes);
    if total != 0x10000 {
      var one := OnlyOne(sizes, numCodes);
      if !one { return false; }
    }
    UsableFits(sizes);
    hide Usable, Complete, Fits, CodeOf, Partial;
    var codes := AssignCodes(sizes, nextCode);
    FillTable(sizes, codes, table);
    return true;
  }

  method FillTable(sizes: seq<nat>, codes: array<nat>, table: array<nat>)
    requires |sizes| <= MAX_SYMBOLS && Fits(sizes, TABLE_BITS) && table.Length == TABLE_SIZE
    requires codes != table && codes.Length == MAX_SYMBOLS
    requires forall s :: 0 <= s < |sizes| ==> codes[s] == CodeOf(sizes, s)
    modifies table
    ensures Lookup(sizes, table[..])
  {
    forall w | 0 <= w < TABLE_SIZE { table[w] := 0; }
    var i := 0;
    while i < |sizes|
      invariant 0 <= i <= |sizes| && Partial(sizes, table[..], i)
    {
      ghost var before := table[..];
      var codeSize := sizes[i];
      if codeSize != 0 {
        var newCode := Reverse(codes[i], codeSize);
        RevBound(codes[i], codeSize);
        FillWindows(table, newCode, codeSize, Entry(i, codeSize));
      }
      OneMore(sizes, before, table[..], i);
      i := i + 1;
    }
  }
}
