// From symbol counts to a Huffman code: the used symbols are sorted by count, given code lengths, limited to
// the greatest length allowed, and the canonical codes are written down with their bits reversed.
module HuffmanTables {
  import opened PrefixCodes
  import opened HuffmanTrees
  import opened MinimumRedundancy
  import opened CodeLimits
  import opened Bits
  import CanonicalCodes
  import opened RadixSort
  import opened CheapestCodes

  // --- collecting and sorting the used symbols -----------------------------------------------------------------------

  // Counts fit 16 bits and their sum does not wrap where it matters.
  ghost predicate Countable(counts: seq<nat>) {
    (forall s :: 0 <= s < |counts| ==> counts[s] < 65536) && Sum(counts) <= LIMIT
  }

  ghost function Collected(counts: seq<nat>, n: nat): seq<SymFreq>
    requires n <= |counts|
  {
    if n == 0 then [] else Collected(counts, n - 1) + if counts[n - 1] > 0 then [SymFreq(counts[n - 1], n - 1)] else []
  }

  ghost function KeySum(a: seq<SymFreq>): nat { if |a| == 0 then 0 else KeySum(a[..|a| - 1]) + a[|a| - 1].key }

  ghost predicate Distinct(a: seq<SymFreq>) { forall i, j :: 0 <= i < j < |a| ==> a[i].sym != a[j].sym }

  // The used symbols with their counts, in some order.
  ghost predicate Listed(a: seq<SymFreq>, counts: seq<nat>) {
    && Distinct(a) && KeySum(a) == Sum(counts)
    && (forall i :: 0 <= i < |a| ==> a[i].sym < |counts| && a[i].key == counts[a[i].sym] > 0)
    && forall s :: 0 <= s < |counts| && counts[s] > 0 ==> SymFreq(counts[s], s) in a
  }

  lemma NoneListed(a: seq<SymFreq>, counts: seq<nat>)
    requires |a| == |counts| == 0
    ensures Listed(a, counts)
  {
  }

  lemma OneMoreCount(counts: seq<nat>, n: nat)
    requires 0 < n <= |counts|
    ensures |counts[..n]| == n && counts[..n][..n - 1] == counts[..n - 1] && counts[..n][n - 1] == counts[n - 1]
    ensures Sum(counts[..n]) == Sum(counts[..n - 1]) + counts[n - 1]
  {
    SumSplit(counts[..n], n - 1);
    assert counts[..n][..n - 1] == counts[..n - 1] && counts[..n][n..] == [];
  }

  lemma {:induction false} CollectedListed(counts: seq<nat>, n: nat)
    requires n <= |counts|
    ensures Listed(Collected(counts, n), counts[..n]) && |Collected(counts, n)| <= n
  {
    hide Listed, Sum, KeySum;
    if n == 0 {
      NoneListed(Collected(counts, 0), counts[..0]);
    } else {
      CollectedListed(counts, n - 1);
      OneMoreCount(counts, n);
      var a, x := Collected(counts, n - 1), SymFreq(counts[n - 1], n - 1);
      if counts[n - 1] > 0 { ListedMore(a, x, counts[..n - 1], counts[..n]); }
          else { ListedSame(a, counts[..n - 1], counts[..n]); }
    }
  }

  lemma ListedMore(a: seq<SymFreq>, x: SymFreq, c: seq<nat>, d: seq<nat>)
    requires Listed(a, c) && |d| == |c| + 1 && d[..|c|] == c && x == SymFreq(d[|c|], |c|) && x.key > 0
      && Sum(d) == Sum(c) + x.key
    ensures Listed(a + [x], d)
  {
    assert (a + [x])[..|a|] == a;
    forall s | 0 <= s < |d| && d[s] > 0
      ensures SymFreq(d[s], s) in a + [x]
    {
      if s < |c| { assert c[s] == d[s]; }
    }
    hide Sum;
  }

  lemma ListedSame(a: seq<SymFreq>, c: seq<nat>, d: seq<nat>)
    requires Listed(a, c) && |d| == |c| + 1 && d[..|c|] == c && d[|c|] == 0 && Sum(d) == Sum(c)
    ensures Listed(a + [], d)
  {
    hide Sum, KeySum;
    assert a + [] == a;
    assert forall s :: 0 <= s < |c| ==> c[s] == d[s];
  }

  lemma {:induction false} KeySumRemoved(a: seq<SymFreq>, j: nat)
    requires j < |a|
    ensures KeySum(a) == KeySum(a[..j] + a[j + 1..]) + a[j].key
    decreases |a|
  {
    var n := |a| - 1;
    var rest := a[..j] + a[j + 1..];
    if j == n {
      assert rest == a[..n];
    } else {
      KeySumRemoved(a[..n], j);
      assert rest[..n - 1] == a[..n][..j] + a[..n][j + 1..] && rest[n - 1] == a[n];
    }
  }

  lemma {:induction false} KeySumSame(a: seq<SymFreq>, b: seq<SymFreq>)
    requires multiset(a) == multiset(b)
    ensures KeySum(a) == KeySum(b)
    decreases |a|
  {
    SameLength(a, b);
    if |a| > 0 {
      var x := a[|a| - 1];
      assert x in multiset(a) && x in multiset(b);
      var j :| 0 <= j < |b| && b[j] == x;
      RestSame(a, b, j);
      KeySumSame(a[..|a| - 1], b[..j] + b[j + 1..]);
      KeySumRemoved(b, j);
    }
  }

  lemma Repeated(a: seq<SymFreq>, i: nat, j: nat)
    requires i < j < |a| && a[i] == a[j]
    ensures multiset(a)[a[i]] >= 2
  {
    assert a == a[..j] + [a[j]] + a[j + 1..];
    assert a[i] in a[..j];
    assert multiset(a) == multiset(a[..j]) + multiset{a[j]} + multiset(a[j + 1..]);
  }

  lemma {:induction false} OnlyOnce(a: seq<SymFreq>, x: SymFreq)
    requires Distinct(a)
    ensures multiset(a)[x] <= 1
  {
    if |a| > 0 {
      var n := |a| - 1;
      OnlyOnce(a[..n], x);
      assert a == a[..n] + [a[n]];
      if x == a[n] { assert x !in a[..n]; }
    }
  }

  lemma StillListed(a: seq<SymFreq>, b: seq<SymFreq>, counts: seq<nat>)
    requires Listed(a, counts) && multiset(a) == multiset(b)
    ensures Listed(b, counts)
  {
    KeySumSame(a, b);
    hide Sum, KeySum;
    forall i | 0 <= i < |b|
      ensures b[i] in a
    {
      assert b[i] in multiset(b) && b[i] in multiset(a);
    }
    forall s | 0 <= s < |counts| && counts[s] > 0
      ensures SymFreq(counts[s], s) in b
    {
      var x := SymFreq(counts[s], s);
      assert x in multiset(a) && x in multiset(b);
    }
    forall i, j | 0 <= i < j < |b|
      ensures b[i].sym != b[j].sym
    {
      assert b[i] in a && b[j] in a;
      if b[i].sym == b[j].sym {
        assert b[i] == b[j];
        Repeated(b, i, j);
        OnlyOnce(a, b[i]);
      }
    }
  }

  lemma ListedKeys(a: seq<SymFreq>, counts: seq<nat>)
    requires Listed(a, counts) && Countable(counts)
    ensures RadixSort.Keys(a)
  {
  }

  lemma {:induction false} CollectedInOrder(counts: seq<nat>, n: nat)
    requires n <= |counts|
    ensures RadixSort.SymbolsInOrder(Collected(counts, n)) && forall i :: 0 <= i < |Collected(counts, n)| ==> Collected(counts, n)[i].sym < n
  {
    if n > 0 { CollectedInOrder(counts, n - 1); }
  }

  // The symbols that are used, in the order of their counts, and of the symbols for equal counts.
  method SortedSymbols(counts: seq<nat>) returns (sorted: array<SymFreq>, n: nat)
    requires Countable(counts)
    ensures fresh(sorted) && n <= sorted.Length && n <= |counts| && Listed(sorted[..n], counts)
      && RadixSort.Sorted(sorted[..n]) && RadixSort.TiesInOrder(sorted[..n])
  {
    hide Listed, Countable, RadixSort.Sorted, RadixSort.TiesInOrder, RadixSort.SymbolsInOrder, RadixSort.Keys;
    var syms0 := new SymFreq[|counts|](_ => SymFreq(0, 0));
    var syms1 := new SymFreq[|counts|](_ => SymFreq(0, 0));
    n := 0;
    var i := 0;
    while i < |counts|
      invariant 0 <= i <= |counts| && n <= i && syms0[..n] == Collected(counts, i)
    {
      if counts[i] > 0 {
        syms0[n] := SymFreq(counts[i], i);
        n := n + 1;
      }
      i := i + 1;
    }
    CollectedListed(counts, |counts|);
    CollectedInOrder(counts, |counts|);
    ghost var a := syms0[..n];
    assert counts[..|counts|] == counts;
    ListedKeys(a, counts);
    sorted := RadixSort.RadixSort(syms0, syms1, n);
    StillListed(a, sorted[..n], counts);
  }

  // --- code lengths --------------------------------------------------------------------------------------------------

  lemma {:induction false} FibGrows(a: nat, b: nat, d: nat, e: nat)
    requires d <= e
    ensures FibFrom(a, b, d) <= FibFrom(a, b, e)
    decreases d
  {
    if d > 0 {
      FibGrows(a + b, a, d - 1, e - 1);
    } else {
      FibAtLeast(a, b, e);
    }
  }

  lemma {:induction false} FibAtLeast(a: nat, b: nat, e: nat)
    ensures a <= FibFrom(a, b, e)
    decreases e
  {
    if e > 0 { FibAtLeast(a + b, a, e - 1); }
  }

  lemma FibTwentyTwo()
    ensures FibFrom(2, 1, 22) == 75025 && FibFrom(2, 1, 23) == 121393
  {
    assert FibFrom(2, 1, 22) == FibFrom(13, 8, 18) == FibFrom(89, 55, 14) == FibFrom(610, 377, 10) == FibFrom(4181,
      2584,
      6) == FibFrom(28657, 17711, 2) by {
      FourSteps(2, 1, 18);
      FourSteps(13, 8, 14);
      FourSteps(89, 55, 10);
      FourSteps(610, 377, 6);
      FourSteps(4181, 2584, 2);
    }
    assert FibFrom(2, 1, 23) == FibFrom(13, 8, 19) == FibFrom(89, 55, 15) == FibFrom(610, 377, 11) == FibFrom(4181,
      2584,
      7) == FibFrom(28657, 17711, 3) by {
      FourSteps(2, 1, 19);
      FourSteps(13, 8, 15);
      FourSteps(89, 55, 11);
      FourSteps(610, 377, 7);
      FourSteps(4181, 2584, 3);
    }
    assert FibFrom(28657, 17711, 2) == 75025 && FibFrom(28657, 17711, 3) == 121393;
  }

  lemma FourSteps(a: nat, b: nat, d: nat)
    ensures FibFrom(a, b, d + 4) == FibFrom(5 * a + 3 * b, 3 * a + 2 * b, d)
  {
    assert FibFrom(a, b, d + 4) == FibFrom(a + b, a, d + 3) == FibFrom(2 * a + b, a + b,
      d + 2) == FibFrom(3 * a + 2 * b, 2 * a + b,
      d + 1);
  }

  // Counts whose sum fits 16 bits never lead to a code longer than 22 bits; even the largest sums that can occur
  // lead to none longer than 23. The counters of lengths go up to 32.
  lemma DepthLimit(w: seq<nat>, lens: seq<nat>)
    requires Shallow(w, lens) && Sum(w) <= LIMIT
    ensures forall j :: 0 <= j < |lens| ==> 1 <= lens[j] <= 23
    ensures Sum(w) < 75025 ==> forall j :: 0 <= j < |lens| ==> lens[j] <= 22
  {
    FibTwentyTwo();
    forall j | 0 <= j < |lens|
      ensures 1 <= lens[j] <= 23 && (Sum(w) < 75025 ==> lens[j] <= 22)
    {
      assert lens[j] > 0 && FibFrom(2, 1, lens[j] - 1) <= Sum(w);
      if lens[j] - 1 >= 23 { FibGrows(2, 1, 23, lens[j] - 1); }
      if lens[j] - 1 >= 22 { FibGrows(2, 1, 22, lens[j] - 1); }
    }
  }

  ghost predicate InRange(lens: seq<nat>, m: nat) { forall j :: 0 <= j < |lens| ==> 1 <= lens[j] <= m }

  // The counts of all lengths.
  ghost predicate Tallied(c: seq<int>, lens: seq<nat>) {
    |c| == MAX_SUPPORTED + 1 && forall k :: 1 <= k <= MAX_SUPPORTED ==> c[k] == CanonicalCodes.Count(lens, k)
  }

  lemma CountFirst(x: nat, rest: seq<nat>, k: nat)
    ensures CanonicalCodes.Count([x] + rest, k) == CanonicalCodes.Count(rest, k) + if x == k then 1 else 0
  {
    CanonicalCodes.CountConcat([x], rest, k);
    assert [x][..0] == [];
  }

  lemma {:induction false} NoCodes(c: seq<int>, k: nat, m: nat)
    requires k < |c| && k <= m && forall i :: 1 <= i <= k ==> c[i] == 0
    ensures Codes(c, k) == 0 && Room(c, k, m) == 0
  {
    OnlyLongest(c, k, m);
  }

  lemma TallyCounts(c: seq<int>, lens: seq<nat>)
    requires Tallied(c, lens)
    ensures Counts(c)
  {
    hide CanonicalCodes.Count;
  }

  lemma NothingTallied(c: seq<int>, lens: seq<nat>)
    requires Tallied(c, lens) && |lens| == 0
    ensures Counts(c) && Codes(c, MAX_SUPPORTED) == 0
    ensures Bounded(lens, MAX_SUPPORTED) && Room(c, MAX_SUPPORTED, MAX_SUPPORTED) == Kraft(lens, MAX_SUPPORTED) == 0
  {
    NoCodes(c, MAX_SUPPORTED, MAX_SUPPORTED);
  }

  lemma TallyRest(c: seq<int>, lens: seq<nat>) returns (d: seq<int>)
    requires Tallied(c, lens) && InRange(lens, MAX_SUPPORTED) && |lens| > 0
    ensures |c| == |d| == MAX_SUPPORTED + 1 && 1 <= lens[0] <= MAX_SUPPORTED && d == c[lens[0] := c[lens[0]] - 1]
    ensures Tallied(d, lens[1..]) && InRange(lens[1..], MAX_SUPPORTED)
  {
    hide CanonicalCodes.Count;
    var x, rest := lens[0], lens[1..];
    assert lens == [x] + rest;
    d := c[x := c[x] - 1];
    forall k | 1 <= k <= MAX_SUPPORTED ensures d[k] == CanonicalCodes.Count(rest, k) { CountFirst(x, rest, k); }
  }

  // Counting codes and room by length or by symbol comes to the same.
  lemma {:induction false} TalliesAre(c: seq<int>, lens: seq<nat>)
    requires Tallied(c, lens) && InRange(lens, MAX_SUPPORTED)
    ensures Counts(c) && Codes(c, MAX_SUPPORTED) == |lens|
    ensures Bounded(lens, MAX_SUPPORTED) && Room(c, MAX_SUPPORTED, MAX_SUPPORTED) == Kraft(lens, MAX_SUPPORTED)
    decreases |lens|
  {
    hide Codes, Room, Kraft, CanonicalCodes.Count, Tallied, Counts;
    if |lens| == 0 {
      NothingTallied(c, lens);
    } else {
      var d := TallyRest(c, lens);
      var x := lens[0];
      TalliesAre(d, lens[1..]);
      CodesChange(d, c, MAX_SUPPORTED, x);
      RoomChange(d, c, MAX_SUPPORTED, MAX_SUPPORTED, x);
      KraftFirst(lens, MAX_SUPPORTED);
      assert 1 * Pow2(MAX_SUPPORTED - x) == Pow2(MAX_SUPPORTED - x);
      TallyCounts(c, lens);
    }
  }

  lemma KraftFirst(lens: seq<nat>, m: nat)
    requires |lens| > 0 && InRange(lens, m)
    ensures Bounded(lens, m) && Bounded(lens[1..], m) && Kraft(lens, m) == Pow2(m - lens[0]) + Kraft(lens[1..], m)
  {
  }

  ghost function KeysOf(a: seq<SymFreq>): (r: seq<nat>)
    ensures |r| == |a| && forall i :: 0 <= i < |a| ==> r[i] == a[i].key
  {
    seq(|a|, i requires 0 <= i < |a| => a[i].key)
  }

  lemma {:induction false} KeysSum(a: seq<SymFreq>)
    ensures Sum(KeysOf(a)) == KeySum(a)
  {
    if |a| > 0 {
      var n := |a| - 1;
      KeysSum(a[..n]);
      SumSplit(KeysOf(a), n);
      assert KeysOf(a)[..n] == KeysOf(a[..n]) && KeysOf(a)[n + 1..] == [];
    }
  }

  method CopyKeys(sorted: array<SymFreq>, n: nat) returns (keys: array<Key>)
    requires n <= sorted.Length && forall i :: 0 <= i < n ==> sorted[i].key < 65536
    ensures fresh(keys) && keys.Length == n && forall i :: 0 <= i < n ==> keys[i] == sorted[i].key
  {
    keys := new Key[n](_ => 0);
    var i := 0;
    while i < n
      invariant 0 <= i <= n && forall j :: 0 <= j < i ==> keys[j] == sorted[j].key
    {
      keys[i] := sorted[i].key;
      i := i + 1;
    }
  }

  // The code lengths of n sorted symbols: a complete code, or one bit for a single symbol.
  ghost predicate LengthsFor(lens: seq<nat>, a: seq<SymFreq>) {
    && |lens| == |a| && InRange(lens, MAX_SUPPORTED)
    && (|a| >= 2 ==> Full(lens) && Falling(lens)) && (|a| == 1 ==> lens[0] == 1)
  }

  lemma KeysAre(w: seq<nat>, a: seq<SymFreq>, counts: seq<nat>)
    requires Listed(a, counts) && Countable(counts) && RadixSort.Sorted(a) && w == KeysOf(a)
    ensures Positive(w) && Sum(w) <= LIMIT && forall i, j :: 0 <= i <= j < |w| ==> w[i] <= w[j]
  {
    KeysSum(a);
    hide Sum, KeySum;
  }

  lemma LengthsFound(w: seq<nat>, lens: seq<nat>, a: seq<SymFreq>)
    requires |lens| == |a| && (|a| == 1 ==> lens[0] == 1)
    requires |a| >= 2 ==> Full(lens) && Falling(lens) && Shallow(w, lens) && Sum(w) <= LIMIT
    ensures LengthsFor(lens, a)
  {
    if |a| >= 2 { DepthLimit(w, lens); }
  }

  // No code for the symbols is cheaper, and its lengths are bounded.
  ghost predicate BestFor(lens: seq<nat>, a: seq<SymFreq>) {
    && |lens| == |a| && (|a| >= 2 ==> Optimal(KeysOf(a), lens) && Shallow(KeysOf(a), lens))
  }

  method CodeLengths(sorted: array<SymFreq>, n: nat, ghost counts: seq<nat>) returns (keys: array<Key>)
    requires n <= sorted.Length && n <= 65536 && Listed(sorted[..n], counts) && Countable(counts)
      && RadixSort.Sorted(sorted[..n])
    ensures fresh(keys) && LengthsFor(keys[..], sorted[..n]) && BestFor(keys[..], sorted[..n])
  {
    hide Sum, KeySum, Full, Falling, Shallow, LengthsFor, Optimal, Tame;
    ghost var a := sorted[..n];
    forall i | 0 <= i < n ensures sorted[i].key < 65536 { assert a[i].key == counts[a[i].sym]; }
    keys := CopyKeys(sorted, n);
    ghost var w := keys[..];
    assert w == KeysOf(a);
    KeysAre(w, a, counts);
    if n >= 2 { SmallIsTame(w); }
    CalculateMinimumRedundancy(keys);
    LengthsFound(w, keys[..], a);
  }

  // --- assigning lengths to symbols --------------------------------------------------------------

  method Tally(keys: array<Key>) returns (numCodes: array<int>)
    requires InRange(keys[..], MAX_SUPPORTED)
    ensures fresh(numCodes) && Tallied(numCodes[..], keys[..]) && numCodes.Length == MAX_SUPPORTED + 1
      && numCodes[0] == 0
  {
    hide CanonicalCodes.Count, Tallied;
    numCodes := new int[MAX_SUPPORTED + 1](_ => 0);
    NoneTallied(numCodes[..], keys[..0]);
    var i := 0;
    while i < keys.Length
      invariant 0 <= i <= keys.Length && numCodes[0] == 0 && Tallied(numCodes[..], keys[..i])
    {
      TalliedNext(numCodes[..], keys[..], i);
      numCodes[keys[i]] := numCodes[keys[i]] + 1;
      i := i + 1;
    }
    assert keys[..i] == keys[..];
  }

  lemma NoneTallied(c: seq<int>, keys: seq<Key>)
    requires |keys| == 0 && |c| == MAX_SUPPORTED + 1 && forall k :: 0 <= k < |c| ==> c[k] == 0
    ensures Tallied(c, keys)
  {
  }

  lemma TalliedNext(c: seq<int>, keys: seq<Key>, i: nat)
    requires i < |keys| && InRange(keys, MAX_SUPPORTED) && Tallied(c, keys[..i])
    ensures 1 <= keys[i] < |c| && Tallied(c[keys[i] := c[keys[i]] + 1], keys[..i + 1])
  {
    assert keys[..i + 1][..i] == keys[..i];
  }

  // With less than two symbols there is nothing to limit.
  lemma {:induction false} FewSymbols(c: seq<int>, lens: seq<nat>, k: nat)
    requires Tallied(c, lens) && |lens| <= 1 && (|lens| == 1 ==> lens[0] == 1) && 1 <= k <= MAX_SUPPORTED
    ensures Codes(c, k) == |lens|
    decreases k
  {
    if |lens| == 1 { assert lens[..0] == []; }
    if k > 1 { FewSymbols(c, lens, k - 1); } else { assert Codes(c, 0) == 0; }
  }

  lemma BeforeLimiting(c: seq<int>, lens: seq<nat>, a: seq<SymFreq>)
    requires Tallied(c, lens) && LengthsFor(lens, a)
    ensures Counts(c) && Codes(c, MAX_SUPPORTED) == |a|
    ensures |a| > 1 ==> Room(c, MAX_SUPPORTED, MAX_SUPPORTED) == Pow2(MAX_SUPPORTED)
  {
    hide Codes, Room, Kraft, Pow2, CanonicalCodes.Count, Falling, Tallied;
    TalliesAre(c, lens);
  }

  lemma FewCounted(c: seq<int>, lens: seq<nat>, a: seq<SymFreq>, limit: nat)
    requires Tallied(c, lens) && LengthsFor(lens, a) && |a| <= 1 && 1 <= limit <= MAX_SUPPORTED
    ensures Codes(c, limit) == |a| && (|a| == 1 ==> |c| > 1 && c[1] == 1)
  {
    hide Full, Falling;
    FewSymbols(c, lens, limit);
    FewSymbols(c, lens, 1);
    assert Codes(c, 0) == 0;
  }

  lemma NoneBeyond(c: seq<int>, lens: seq<nat>, limit: nat)
    requires Tallied(c, lens) && CanonicalCodes.Limited(lens, limit)
    ensures |c| == MAX_SUPPORTED + 1 && forall i :: limit < i <= MAX_SUPPORTED ==> c[i] == 0
  {
    forall i | limit < i <= MAX_SUPPORTED ensures c[i] == 0 { CountsNone(lens, i); }
  }

  // Counts the codes of every length and limits the lengths.
  method LimitedCounts(keys: array<Key>, limit: nat, ghost a: seq<SymFreq>) returns (numCodes: array<int>)
    requires LengthsFor(keys[..], a) && 1 <= limit < MAX_SUPPORTED && |a| <= Pow2(limit)
    ensures fresh(numCodes) && numCodes.Length == MAX_SUPPORTED + 1 && Counts(numCodes[..])
      && Codes(numCodes[..], limit) == |a|
    ensures |a| >= 2 ==> Room(numCodes[..], limit, limit) == Pow2(limit)
    ensures |a| == 1 ==> numCodes[1] == 1
    ensures CanonicalCodes.Limited(keys[..], limit) ==> Tallied(numCodes[..], keys[..])
    ensures |a| >= 2 ==> exists c :: Tallied(c, keys[..]) && numCodes[..] == LimitedTo(c, limit)
  {
    hide Codes, Room, Full, Falling, Kraft, Pow2, Counts, CanonicalCodes.Count, Tallied, CanonicalCodes.Limited,
      LimitedTo;
    assert keys.Length == |a| && InRange(keys[..], MAX_SUPPORTED);
    numCodes := Tally(keys);
    ghost var c := numCodes[..];
    BeforeLimiting(c, keys[..], a);
    if keys.Length <= 1 { FewCounted(c, keys[..], a, limit); }
    if CanonicalCodes.Limited(keys[..], limit) { NoneBeyond(c, keys[..], limit); }
    EnforceMaxCodeSize(numCodes, keys.Length, limit);
  }

  // The symbols from position j on have lengths, which grow towards j and are no more than i; all codes shorter
  // than i have been given out, and all but left of those of length i.
  ghost predicate Assigning(sizes: seq<nat>, a: seq<SymFreq>, c: seq<int>, limit: nat, i: nat, left: int, j: int) {
    && |c| == MAX_SUPPORTED + 1 && 1 <= i <= limit + 1 <= MAX_SUPPORTED && Counts(c) && Codes(c, limit) == |a|
        && 0 <= j <= |a|
    && (if i <= limit then 0 <= left <= c[i] && j == |a| - Codes(c, i) + left else left == 0 && j == 0)
    && (forall s :: 0 <= s < |sizes| ==> (sizes[s] > 0 <==> exists k :: j <= k < |a| && a[k].sym == s) && sizes[s] <= i)
    && (forall k :: 0 <= k < |a| ==> a[k].sym < |sizes|)
    && (forall k, l :: j <= k <= l < |a| ==> sizes[a[k].sym] >= sizes[a[l].sym])
    && forall k :: 1 <= k <= limit ==> CanonicalCodes.Count(sizes, k) == if k < i then c[k] else if k == i
        then c[i] - left else 0
  }

  lemma {:induction false} CodesRise(c: seq<int>, i: nat, k: nat)
    requires Counts(c) && i <= k < |c|
    ensures Codes(c, i) <= Codes(c, k)
  {
    if i < k { CodesRise(c, i, k - 1); }
  }

  lemma AssignFits(sizes: seq<nat>, a: seq<SymFreq>, c: seq<int>, limit: nat, i: nat, left: int, j: int)
    requires Assigning(sizes, a, c, limit, i, left, j) && Distinct(a) && i <= limit && left > 0
    ensures 0 < j <= |a| && a[j - 1].sym < |sizes| && sizes[a[j - 1].sym] == 0
  {
    hide CanonicalCodes.Count;
    CodesRise(c, i, limit);
    CodesRise(c, 0, i - 1);
    var x := a[j - 1].sym;
    assert !exists k :: j <= k < |a| && a[k].sym == x;
    assert !(sizes[x] > 0);
  }

  lemma AssignCounts(sizes: seq<nat>, c: seq<int>, limit: nat, i: nat, left: int, x: nat)
    requires |c| == MAX_SUPPORTED + 1 && limit < MAX_SUPPORTED && i <= limit && x < |sizes| && sizes[x] == 0
    requires forall k :: 1 <= k <= limit ==> CanonicalCodes.Count(sizes, k) == if k < i then c[k] else if k == i
      then c[i] - left
      else 0
    ensures forall k :: 1 <= k <= limit ==> CanonicalCodes.Count(sizes[x := i], k) == if k < i then c[k] else if k == i
      then c[i] - (left - 1) else 0
  {
    hide CanonicalCodes.Count;
    forall k | 1 <= k <= limit
      ensures CanonicalCodes.Count(sizes[x := i], k) == if k < i then c[k] else if k == i then c[i] - (left - 1) else 0
    {
      CountChanged(sizes, x, i, k);
    }
  }

  lemma AssignUsed(sizes: seq<nat>, a: seq<SymFreq>, i: nat, j: int, s: nat)
    requires 0 < j <= |a| && s < |sizes| && a[j - 1].sym < |sizes| && i > 0
    requires sizes[s] > 0 <==> exists k :: j <= k < |a| && a[k].sym == s
    ensures sizes[a[j - 1].sym := i][s] > 0 <==> exists k :: j - 1 <= k < |a| && a[k].sym == s
  {
    if s == a[j - 1].sym {
      assert j - 1 <= j - 1 < |a| && a[j - 1].sym == s;
    } else if exists k :: j <= k < |a| && a[k].sym == s {
      var k :| j <= k < |a| && a[k].sym == s;
    }
  }

  lemma AssignOne(sizes: seq<nat>, a: seq<SymFreq>, c: seq<int>, limit: nat, i: nat, left: int, j: int)
    requires Assigning(sizes, a, c, limit, i, left, j) && Distinct(a) && i <= limit && left > 0
    ensures j > 0 && a[j - 1].sym < |sizes| && Assigning(sizes[a[j - 1].sym := i], a, c, limit, i, left - 1, j - 1)
  {
    hide Codes, Counts, CanonicalCodes.Count;
    AssignFits(sizes, a, c, limit, i, left, j);
    var x := a[j - 1].sym;
    AssignCounts(sizes, c, limit, i, left, x);
    var sizes' := sizes[x := i];
    forall s | 0 <= s < |sizes|
      ensures sizes'[s] > 0 <==> exists k :: j - 1 <= k < |a| && a[k].sym == s
    {
      AssignUsed(sizes, a, i, j, s);
    }
  }

  lemma NextLength(sizes: seq<nat>, a: seq<SymFreq>, c: seq<int>, limit: nat, i: nat, j: int)
    requires Assigning(sizes, a, c, limit, i, 0, j) && i <= limit < MAX_SUPPORTED
    ensures Assigning(sizes, a, c, limit, i + 1, if i + 1 <= limit then c[i + 1] else 0, j)
  {
    hide CanonicalCodes.Count;
  }

  lemma {:induction false} NothingCounted(sizes: seq<nat>, k: nat)
    requires k > 0 && forall s :: 0 <= s < |sizes| ==> sizes[s] == 0
    ensures CanonicalCodes.Count(sizes, k) == 0
    decreases |sizes|
  {
    if |sizes| > 0 { NothingCounted(sizes[..|sizes| - 1], k); }
  }

  lemma NothingAssigned(sizes: seq<nat>, a: seq<SymFreq>, c: seq<int>, limit: nat, counts: seq<nat>)
    requires |sizes| == |counts| && (forall s :: 0 <= s < |sizes| ==> sizes[s] == 0) && Listed(a, counts)
    requires |c| == MAX_SUPPORTED + 1 && 1 <= limit < MAX_SUPPORTED && Counts(c) && Codes(c, limit) == |a|
    ensures Assigning(sizes, a, c, limit, 1, c[1], |a|)
  {
    forall k | 1 <= k <= limit ensures CanonicalCodes.Count(sizes, k) == 0 { NothingCounted(sizes, k); }
    hide CanonicalCodes.Count, Sum, KeySum;
    assert Codes(c, 1) == c[1] + Codes(c, 0);
  }

  // Lengths for symbols: exactly the used ones have one, and frequent symbols have no longer ones than rare symbols;
  // among equally frequent symbols the later ones have no longer ones.
  ghost predicate SizesFor(sizes: seq<nat>, counts: seq<nat>, limit: nat) {
    && |sizes| == |counts| && CanonicalCodes.Limited(sizes, limit)
    && (forall s :: 0 <= s < |sizes| ==> (sizes[s] > 0 <==> counts[s] > 0))
    && forall s, t :: 0 <= s < |sizes| && 0 <= t < |sizes| && 0 < counts[s] && Rarer(counts, s, t)
        ==> sizes[s] >= sizes[t]
  }

  ghost predicate Rarer(counts: seq<nat>, s: nat, t: nat)
    requires s < |counts| && t < |counts|
  {
    counts[s] < counts[t] || (counts[s] == counts[t] && s < t)
  }

  // Two symbols and their positions in the list: the more frequent one comes later and has no longer a code.
  lemma FrequentShort(sizes: seq<nat>, a: seq<SymFreq>, s: nat, t: nat, k: nat, l: nat)
    requires RadixSort.Sorted(a) && RadixSort.TiesInOrder(a) && k < |a| && l < |a| && s < |sizes| && t < |sizes|
    requires a[k].key < a[l].key || (a[k].key == a[l].key && s < t)
    requires a[k].sym == s && a[l].sym == t && NoLonger(sizes, a)
    ensures sizes[s] >= sizes[t]
  {
  }

  // Code lengths never rise along the list.
  ghost predicate NoLonger(sizes: seq<nat>, a: seq<SymFreq>) {
    (forall k :: 0 <= k < |a| ==> a[k].sym < |sizes|) && forall k, l :: 0 <= k <= l < |a| ==> sizes[a[k].sym] >= sizes[a[l].sym]
  }

  ghost predicate UsedAre(sizes: seq<nat>, a: seq<SymFreq>) {
    forall s :: 0 <= s < |sizes| ==> (sizes[s] > 0 <==> exists k :: 0 <= k < |a| && a[k].sym == s)
  }

  // At the end everything is given out.
  lemma GivenOut(sizes: seq<nat>, a: seq<SymFreq>, c: seq<int>, limit: nat)
    requires Assigning(sizes, a, c, limit, limit + 1, 0, 0)
    ensures |c| > limit && NoLonger(sizes, a) && UsedAre(sizes, a)
    ensures forall k :: 1 <= k <= limit ==> CanonicalCodes.Count(sizes, k) == c[k]
  {
    hide CanonicalCodes.Count, Codes, Counts;
  }

  lemma PlaceInList(a: seq<SymFreq>, counts: seq<nat>, s: nat) returns (k: nat)
    requires Listed(a, counts) && s < |counts| && counts[s] > 0
    ensures k < |a| && a[k].sym == s && a[k].key == counts[s]
  {
    hide Sum, KeySum, Distinct;
    k :| 0 <= k < |a| && a[k] == SymFreq(counts[s], s);
  }

  lemma UsedCounted(a: seq<SymFreq>, counts: seq<nat>, k: nat)
    requires Listed(a, counts) && k < |a|
    ensures a[k].sym < |counts| && counts[a[k].sym] > 0
  {
    hide Sum, KeySum, Distinct;
  }

  lemma AllAssigned(sizes: seq<nat>, a: seq<SymFreq>, c: seq<int>, limit: nat, counts: seq<nat>)
    requires Assigning(sizes, a, c, limit, limit + 1, 0, 0) && Listed(a, counts) && |sizes| == |counts|
      && RadixSort.Sorted(a) && RadixSort.TiesInOrder(a)
    requires CanonicalCodes.Limited(sizes, limit)
    ensures SizesFor(sizes, counts, limit) && NoLonger(sizes, a)
    ensures |c| > limit && forall k :: 1 <= k <= limit ==> CanonicalCodes.Count(sizes, k) == c[k]
  {
    hide CanonicalCodes.Count, CanonicalCodes.Limited, Assigning, Listed, RadixSort.Sorted, RadixSort.TiesInOrder,
      NoLonger;
    GivenOut(sizes, a, c, limit);
    forall s | 0 <= s < |sizes|
      ensures sizes[s] > 0 <==> counts[s] > 0
    {
      if counts[s] > 0 { var k := PlaceInList(a, counts, s); }
      if sizes[s] > 0 {
        var k :| 0 <= k < |a| && a[k].sym == s;
        UsedCounted(a, counts, k);
      }
    }
    forall s, t | 0 <= s < |sizes| && 0 <= t < |sizes| && 0 < counts[s] && Rarer(counts, s, t)
      ensures sizes[s] >= sizes[t]
    {
      var k := PlaceInList(a, counts, s);
      var l := PlaceInList(a, counts, t);
      FrequentShort(sizes, a, s, t, k, l);
    }
  }

  lemma AssigningFacts(sizes: seq<nat>, a: seq<SymFreq>, c: seq<int>, limit: nat, i: nat, left: int, j: int)
    requires Assigning(sizes, a, c, limit, i, left, j)
    ensures 0 <= left && 0 <= j <= |a| && |c| == MAX_SUPPORTED + 1 && (i > limit ==> left == 0 && j == 0)
      && 1 <= i <= limit + 1 <= MAX_SUPPORTED
    ensures i <= limit ==> CanonicalCodes.Limited(sizes, limit)
  {
  }

  // Gives the shortest codes to the most frequent symbols.
  method AssignLengths(sorted: array<SymFreq>, n: nat, numCodes: array<int>, limit: nat, tableLen: nat,
      ghost counts: seq<nat>) returns (sizes: array<nat>)
    requires n <= sorted.Length && Listed(sorted[..n], counts) && RadixSort.Sorted(sorted[..n])
      && RadixSort.TiesInOrder(sorted[..n]) && tableLen == |counts|
    requires numCodes.Length == MAX_SUPPORTED + 1 && 1 <= limit < MAX_SUPPORTED && Counts(numCodes[..])
      && Codes(numCodes[..], limit) == n
    ensures fresh(sizes) && sizes.Length == tableLen && SizesFor(sizes[..], counts, limit)
      && NoLonger(sizes[..], sorted[..n])
    ensures forall k :: 1 <= k <= limit ==> CanonicalCodes.Count(sizes[..], k) == numCodes[k]
  {
    hide Listed, RadixSort.Sorted, RadixSort.TiesInOrder, Counts, Codes, Assigning, SizesFor, NoLonger,
      CanonicalCodes.Count, CanonicalCodes.Limited;
    ghost var a, c := sorted[..n], numCodes[..];
    sizes := new nat[tableLen](_ => 0);
    NothingAssigned(sizes[..], a, c, limit, counts);
    ListedDistinct(a, counts);
    var i: nat, j: int := 1, n;
    assert CanonicalCodes.Limited(sizes[..], limit) by { AssigningFacts(sizes[..], a, c, limit, 1, c[1], j); }
    while i <= limit
      invariant 1 <= i <= limit + 1 && 0 <= j <= n
        && Assigning(sizes[..], a, c, limit, i, if i <= limit then c[i] else 0, j)
      invariant CanonicalCodes.Limited(sizes[..], limit)
    {
      var l := numCodes[i];
      AssigningFacts(sizes[..], a, c, limit, i, l, j);
      while l > 0
        invariant 0 <= j <= n && Assigning(sizes[..], a, c, limit, i, l, j) && 0 <= l
      {
        ghost var was := sizes[..];
        AssignOne(was, a, c, limit, i, l, j);
        j := j - 1;
        sizes[sorted[j].sym] := i;
        assert sizes[..] == was[a[j].sym := i];
        AssigningFacts(sizes[..], a, c, limit, i, l - 1, j);
        l := l - 1;
      }
      AssigningFacts(sizes[..], a, c, limit, i, l, j);
      NextLength(sizes[..], a, c, limit, i, j);
      i := i + 1;
    }
    AssigningFacts(sizes[..], a, c, limit, i, 0, j);
    AllAssigned(sizes[..], a, c, limit, counts);
  }

  lemma ListedDistinct(a: seq<SymFreq>, counts: seq<nat>)
    requires Listed(a, counts)
    ensures Distinct(a)
  {
  }

  // --- codes ---------------------------------------------------------------------------------------------------------

  lemma {:induction false} SameSpace(sizes: seq<nat>, c: seq<int>, k: nat, m: nat)
    requires k <= m && k < |c| && forall i :: 1 <= i <= k ==> CanonicalCodes.Count(sizes, i) == c[i]
    ensures CanonicalCodes.Space(sizes, k, m) == Room(c, k, m) && CanonicalCodes.Used(sizes, k) == Codes(c, k)
  {
    if k > 0 { SameSpace(sizes, c, k - 1, m); }
  }

  method FirstCodes(sizes: seq<nat>, numCodes: array<int>, limit: nat) returns (nextCode: array<nat>)
    requires numCodes.Length == MAX_SUPPORTED + 1 && 1 <= limit <= MAX_SUPPORTED
    requires forall k :: 1 <= k <= limit ==> CanonicalCodes.Count(sizes, k) == numCodes[k]
    ensures fresh(nextCode) && nextCode.Length == MAX_SUPPORTED + 1
    ensures forall k :: 1 <= k <= limit ==> nextCode[k] == CanonicalCodes.Start(sizes, k)
  {
    hide CanonicalCodes.Count;
    nextCode := new nat[MAX_SUPPORTED + 1];
    nextCode[1] := 0;
    var i, j := 2, 0;
    while i <= limit
      invariant 2 <= i <= limit + 1 && j == CanonicalCodes.Start(sizes, i - 1)
      invariant forall k :: 1 <= k < i ==> nextCode[k] == CanonicalCodes.Start(sizes, k)
    {
      j := (j + numCodes[i - 1]) * 2;
      nextCode[i] := j;
      i := i + 1;
    }
  }

  // The codes of all used symbols, first bit lowest.
  ghost predicate CodesFor(codes: seq<nat>, sizes: seq<nat>, n: nat) {
    |codes| == |sizes| && n <= |sizes| && forall s :: 0 <= s < n && sizes[s] > 0 ==> codes[s] == Rev(CanonicalCodes.CodeOf(sizes, s), sizes[s])
  }

  ghost predicate NextCodes(next: seq<nat>, sizes: seq<nat>, i: nat, limit: nat) {
    && |next| == MAX_SUPPORTED + 1 && i <= |sizes| && limit <= MAX_SUPPORTED
    && forall k :: 1 <= k <= limit ==> next[k] == CanonicalCodes.Start(sizes, k) + CanonicalCodes.Count(sizes[..i], k)
  }

  lemma NoCodesYet(codes: seq<nat>, next: seq<nat>, sizes: seq<nat>, limit: nat)
    requires |codes| == |sizes| && |next| == MAX_SUPPORTED + 1 && limit <= MAX_SUPPORTED
    requires forall k :: 1 <= k <= limit ==> next[k] == CanonicalCodes.Start(sizes, k)
    ensures CodesFor(codes, sizes, 0) && NextCodes(next, sizes, 0, limit)
  {
    hide CanonicalCodes.Start;
    assert sizes[..0] == [];
  }

  lemma CodeGiven(codes: seq<nat>, next: seq<nat>, sizes: seq<nat>, i: nat, limit: nat)
    requires CanonicalCodes.Limited(sizes, limit) && i < |sizes| && CodesFor(codes, sizes, i)
      && NextCodes(next, sizes, i, limit)
    ensures |codes| == |sizes| && |next| == MAX_SUPPORTED + 1 && sizes[i] <= limit <= MAX_SUPPORTED
    ensures sizes[i] == 0 ==> CodesFor(codes, sizes, i + 1) && NextCodes(next, sizes, i + 1, limit)
    ensures sizes[i] > 0 ==>
      && next[sizes[i]] == CanonicalCodes.CodeOf(sizes, i)
          && NextCodes(next[sizes[i] := next[sizes[i]] + 1], sizes, i + 1, limit)
      && CodesFor(codes[i := Rev(CanonicalCodes.CodeOf(sizes, i), sizes[i])], sizes, i + 1)
  {
    hide CanonicalCodes.Start, Rev;
    assert sizes[..i + 1][..i] == sizes[..i];
  }

  method ReversedCodes(sizes: seq<nat>, nextCode: array<nat>, limit: nat) returns (codes: array<nat>)
    requires CanonicalCodes.Limited(sizes, limit) && limit <= MAX_SUPPORTED && nextCode.Length == MAX_SUPPORTED + 1
    requires forall k :: 1 <= k <= limit ==> nextCode[k] == CanonicalCodes.Start(sizes, k)
    modifies nextCode
    ensures fresh(codes) && CodesFor(codes[..], sizes, |sizes|)
  {
    hide Rev, CanonicalCodes.Start, NextCodes, CodesFor;
    codes := new nat[|sizes|](_ => 0);
    var i := 0;
    assert CodesFor(codes[..], sizes, 0) && NextCodes(nextCode[..], sizes, 0,
      limit) by { NoCodesYet(codes[..], nextCode[..], sizes, limit); }
    while i < |sizes|
      invariant 0 <= i <= |sizes| && CodesFor(codes[..], sizes, i) && NextCodes(nextCode[..], sizes, i, limit)
    {
      ghost var next, done := nextCode[..], codes[..];
      CodeGiven(done, next, sizes, i, limit);
      var codeSize := sizes[i];
      if codeSize != 0 {
        var code := nextCode[codeSize];
        nextCode[codeSize] := nextCode[codeSize] + 1;
        var revCode := Reverse(code, codeSize);
        codes[i] := revCode;
        assert nextCode[..] == next[codeSize := next[codeSize] + 1];
        assert codes[..] == done[i := revCode];
      }
      i := i + 1;
    }
  }

  // A code that leaves no gap, or a single code of one bit.
  ghost predicate Dense(sizes: seq<nat>, limit: nat) {
    && (CanonicalCodes.Used(sizes, limit) >= 2 ==> CanonicalCodes.Complete(sizes, limit))
    && (CanonicalCodes.Used(sizes, limit) == 1 ==> CanonicalCodes.Count(sizes, 1) == 1)
  }

  // --- cost ----------------------------------------------------------------------------------------------------------

  // The lengths are those of a cheapest code if that one fits the limit, and otherwise there are as many of every
  // length as limiting those makes. No length of the cheapest code is longer than Fibonacci numbers up to the sum of
  // the counts allow.
  ghost predicate Thrifty(sizes: seq<nat>, counts: seq<nat>, limit: nat) {
    exists best :: Cheapest(best, counts) && Shortish(best, counts) && LimitedFrom(sizes, best, limit)
  }

  ghost predicate LimitedFrom(sizes: seq<nat>, best: seq<nat>, limit: nat) {
    && (CanonicalCodes.Limited(best, limit) ==> sizes == best)
    && (CanonicalCodes.Used(best, MAX_SUPPORTED) >= 2 ==> exists c :: Tallied(c, best) && LimitedCount(sizes, c, limit))
  }

  ghost predicate LimitedCount(sizes: seq<nat>, c: seq<int>, limit: nat) {
    && 1 <= limit < |c| && forall k :: 1 <= k <= limit ==> CanonicalCodes.Count(sizes, k) == LimitedTo(c, limit)[k]
  }

  ghost predicate Shortish(best: seq<nat>, counts: seq<nat>) {
    |best| == |counts| && forall s :: 0 <= s < |best| && best[s] > 1 ==> FibFrom(2, 1, best[s] - 1) <= Sum(counts)
  }

  // So it is the cheapest code of all as long as the sum is small.
  lemma CheapestWhen(sizes: seq<nat>, counts: seq<nat>, limit: nat)
    requires Thrifty(sizes, counts, limit) && limit > 0 && Sum(counts) < FibFrom(2, 1, limit)
    ensures Cheapest(sizes, counts)
  {
    hide Cheapest, FibFrom, Sum, LimitedCount, Tallied, CanonicalCodes.Used;
    var best :| Cheapest(best, counts) && Shortish(best, counts) && LimitedFrom(sizes, best, limit);
    forall s | 0 <= s < |best|
      ensures best[s] <= limit
    {
      if best[s] > limit { FibGrows(2, 1, limit, best[s] - 1); }
    }
  }

  ghost function SymsOf(a: seq<SymFreq>): (r: seq<nat>)
    ensures |r| == |a| && forall i :: 0 <= i < |r| ==> r[i] == a[i].sym
  {
    seq(|a|, i requires 0 <= i < |a| => a[i].sym)
  }

  lemma ListCovers(a: seq<SymFreq>, counts: seq<nat>)
    requires Listed(a, counts)
    ensures Covers(SymsOf(a), counts) && Pick(counts, SymsOf(a)) == KeysOf(a)
    ensures forall i :: 0 <= i < |a| ==> counts[SymsOf(a)[i]] > 0
  {
    hide Sum, KeySum;
    forall s | 0 <= s < |counts| && counts[s] > 0
      ensures s in SymsOf(a)
    {
      var k := PlaceInList(a, counts, s);
      assert SymsOf(a)[k] == s;
    }
  }

  // A single symbol needs one bit.
  lemma OneSymbolBest(best: seq<nat>, counts: seq<nat>, syms: seq<nat>)
    requires Covers(syms, counts) && |best| == |counts| && |syms| <= 1
    requires forall i :: 0 <= i < |syms| ==> counts[syms[i]] > 0 && best[syms[i]] == 1
    ensures Cheapest(best, counts)
  {
    hide Cost, CanonicalCodes.Fits, Pick;
    forall other: seq<nat>, m: nat | CanonicalCodes.Fits(other, m) && |other| == |counts|
      && (forall s :: 0 <= s < |counts| && counts[s] > 0 ==> other[s] > 0)
      ensures Cost(counts, best) <= Cost(counts, other)
    {
      CostPicked(counts, best, syms);
      CostPicked(counts, other, syms);
      CostOne(Pick(counts, syms), Pick(best, syms), Pick(other, syms));
    }
  }

  lemma CostOne(w: seq<nat>, s: seq<nat>, t: seq<nat>)
    requires |w| == |s| == |t| <= 1 && (|w| == 1 ==> s[0] == 1 <= t[0])
    ensures Cost(w, s) <= Cost(w, t)
  {
    if |w| == 1 { MulMono(1, t[0], w[0]); }
  }

  lemma ListCheapest(best: seq<nat>, counts: seq<nat>, a: seq<SymFreq>, lens: seq<nat>)
    requires Listed(a, counts) && LengthsFor(lens, a) && BestFor(lens, a) && |best| == |counts|
    requires Covers(SymsOf(a), counts) && Pick(best, SymsOf(a)) == lens
    ensures Cheapest(best, counts)
  {
    hide Listed, Optimal, Cheapest, Shallow, Covers, Full, Falling, Pick;
    ListCovers(a, counts);
    if |a| >= 2 { PickedCheapest(best, counts, SymsOf(a)); }
    else { OneSymbolBest(best, counts, SymsOf(a)); }
  }

  lemma ListShort(best: seq<nat>, counts: seq<nat>, a: seq<SymFreq>, lens: seq<nat>)
    requires Listed(a, counts) && LengthsFor(lens, a) && BestFor(lens, a) && |best| == |counts|
    requires Covers(SymsOf(a), counts) && Pick(best, SymsOf(a)) == lens
      && forall s :: 0 <= s < |best| && s !in SymsOf(a) ==> best[s] == 0
    ensures Shortish(best, counts)
  {
    hide Optimal, FibFrom, Covers, Full, Falling, Sum, KeySum;
    KeysSum(a);
    forall s | 0 <= s < |best| && best[s] > 1
      ensures FibFrom(2, 1, best[s] - 1) <= Sum(counts)
    {
      assert s in SymsOf(a);
      var i :| 0 <= i < |a| && SymsOf(a)[i] == s;
      assert Pick(best, SymsOf(a))[i] == lens[i];
    }
  }

  // Given out along the list, the lengths are those that were counted.
  lemma SameLengths(sizes: seq<nat>, best: seq<nat>, counts: seq<nat>, a: seq<SymFreq>, lens: seq<nat>, c: seq<int>,
      limit: nat)
    requires Listed(a, counts) && LengthsFor(lens, a) && Covers(SymsOf(a), counts) && SizesFor(sizes, counts, limit)
      && NoLonger(sizes, a)
    requires Tallied(c, lens) && limit < MAX_SUPPORTED && CanonicalCodes.Limited(lens, limit)
    requires forall k :: 1 <= k <= limit ==> CanonicalCodes.Count(sizes, k) == c[k]
    requires |best| == |counts| && Pick(best, SymsOf(a)) == lens
      && forall s :: 0 <= s < |best| && s !in SymsOf(a) ==> best[s] == 0
    ensures sizes == best
  {
    hide Listed, CanonicalCodes.Count, Full;
    var syms := SymsOf(a);
    ListCovers(a, counts);
    CoversSizes(sizes, counts, syms);
    var picked := Pick(sizes, syms);
    forall k | 1 <= k <= limit
      ensures CanonicalCodes.Count(picked, k) == CanonicalCodes.Count(lens, k)
    {
      CountPicked(sizes, syms, k);
    }
    Fall(lens, a);
    assert NeverRises(picked);
    SameFall(picked, lens, limit);
    forall s | 0 <= s < |sizes|
      ensures sizes[s] == best[s]
    {
      if s in syms {
        var i :| 0 <= i < |syms| && syms[i] == s;
        assert picked[i] == lens[i];
      }
    }
  }

  lemma Fall(lens: seq<nat>, a: seq<SymFreq>)
    requires LengthsFor(lens, a)
    ensures NeverRises(lens)
  {
    hide Full;
  }

  lemma CoversSizes(sizes: seq<nat>, counts: seq<nat>, syms: seq<nat>)
    requires Covers(syms, counts) && |sizes| == |counts|
      && forall s :: 0 <= s < |sizes| ==> (sizes[s] > 0 <==> counts[s] > 0)
    ensures Covers(syms, sizes)
  {
  }

  lemma {:induction false} UsedTallied(c: seq<int>, lens: seq<nat>, k: nat)
    requires Tallied(c, lens) && k <= MAX_SUPPORTED
    ensures CanonicalCodes.Used(lens, k) == Codes(c, k)
  {
    hide CanonicalCodes.Count;
    if k > 0 { UsedTallied(c, lens, k - 1); }
  }

  // The code lengths spread over the alphabet are counted as before.
  lemma SpreadTallied(best: seq<nat>, syms: seq<nat>, lens: seq<nat>, c: seq<int>)
    requires Covers(syms, best) && Pick(best, syms) == lens && Tallied(c, lens)
    ensures Tallied(c, best)
  {
    hide Covers, Pick, CanonicalCodes.Count;
    forall k | 1 <= k <= MAX_SUPPORTED
      ensures CanonicalCodes.Count(lens, k) == CanonicalCodes.Count(best, k)
    {
      CountPicked(best, syms, k);
    }
  }

  lemma SpreadCovers(best: seq<nat>, counts: seq<nat>, syms: seq<nat>)
    requires Covers(syms, counts) && |best| == |counts| && forall s :: 0 <= s < |best| && s !in syms ==> best[s] == 0
    ensures Covers(syms, best)
  {
  }

  // More than one symbol is used exactly if there is more than one in the list.
  lemma SpreadUsed(best: seq<nat>, syms: seq<nat>, lens: seq<nat>, a: seq<SymFreq>)
    requires Covers(syms, best) && Pick(best, syms) == lens && LengthsFor(lens, a)
    ensures CanonicalCodes.Used(best, MAX_SUPPORTED) == |a|
  {
    hide Covers, Pick, CanonicalCodes.Count, CanonicalCodes.Used, Codes, Full, Falling;
    var c := seq(MAX_SUPPORTED + 1, k => if k < 0 then 0 else CanonicalCodes.Count(lens, k));
    assert Tallied(c, lens);
    SpreadTallied(best, syms, lens, c);
    UsedTallied(c, best, MAX_SUPPORTED);
    TalliesAre(c, lens);
  }

  lemma IsThrifty(sizes: seq<nat>, counts: seq<nat>, a: seq<SymFreq>, lens: seq<nat>, c: seq<int>, limit: nat)
    requires Listed(a, counts) && LengthsFor(lens, a) && BestFor(lens, a) && SizesFor(sizes, counts, limit)
      && NoLonger(sizes, a)
    requires 1 <= limit < MAX_SUPPORTED && |c| == MAX_SUPPORTED + 1
    requires CanonicalCodes.Limited(lens, limit) ==> Tallied(c, lens)
    requires |a| >= 2 ==> exists b :: Tallied(b, lens) && c == LimitedTo(b, limit)
    requires forall k :: 1 <= k <= limit ==> CanonicalCodes.Count(sizes, k) == c[k]
    ensures Thrifty(sizes, counts, limit)
  {
    hide Listed, LengthsFor, BestFor, SizesFor, NoLonger, CanonicalCodes.Count, CanonicalCodes.Used, Tallied, Cheapest,
      Shortish, SpreadOut, Pick, Covers, LimitedTo;
    var syms := SymsOf(a);
    ListCovers(a, counts);
    LengthsMany(lens, a);
    Syms(syms, counts);
    var best := SpreadOut(|counts|, syms, lens);
    SpreadOutIs(|counts|, syms, lens);
    ListCheapest(best, counts, a, lens);
    ListShort(best, counts, a, lens);
    SpreadCovers(best, counts, syms);
    SpreadUsed(best, syms, lens, a);
    if CanonicalCodes.Limited(best, limit) {
      PickedLimited(best, syms, limit);
      SameLengths(sizes, best, counts, a, lens, c, limit);
    }
    if |a| >= 2 {
      var b := CountsBefore(lens, c, limit);
      SpreadTallied(best, syms, lens, b);
      assert LimitedCount(sizes, b, limit);
    }
  }

  lemma CountsBefore(lens: seq<nat>, c: seq<int>, limit: nat) returns (b: seq<int>)
    requires 1 <= limit < MAX_SUPPORTED && exists b :: Tallied(b, lens) && c == LimitedTo(b, limit)
    ensures Tallied(b, lens) && |b| == MAX_SUPPORTED + 1 && c == LimitedTo(b, limit)
  {
    hide LimitedTo, CanonicalCodes.Count;
    b :| Tallied(b, lens) && c == LimitedTo(b, limit);
  }

  lemma Syms(syms: seq<nat>, counts: seq<nat>)
    requires Covers(syms, counts)
    ensures forall i :: 0 <= i < |syms| ==> syms[i] < |counts|
    ensures forall i, j :: 0 <= i < j < |syms| ==> syms[i] != syms[j]
  {
  }

  lemma LengthsMany(lens: seq<nat>, a: seq<SymFreq>)
    requires LengthsFor(lens, a)
    ensures |lens| == |a|
  {
  }

  lemma PickedLimited(sizes: seq<nat>, syms: seq<nat>, limit: nat)
    requires CanonicalCodes.Limited(sizes, limit) && forall i :: 0 <= i < |syms| ==> syms[i] < |sizes|
    ensures CanonicalCodes.Limited(Pick(sizes, syms), limit)
  {
  }

  // A Huffman code for symbols with the given counts, with no code longer than limit.
  method OptimizeTable(counts: seq<nat>, limit: nat) returns (sizes: array<nat>, codes: array<nat>)
    requires Countable(counts) && 1 <= limit < MAX_SUPPORTED && |counts| <= Pow2(limit) && |counts| <= 65536
    ensures fresh(sizes) && fresh(codes) && SizesFor(sizes[..], counts, limit) && Dense(sizes[..], limit)
    ensures CodesFor(codes[..], sizes[..], |counts|) && Thrifty(sizes[..], counts, limit)
  {
    hide Listed, RadixSort.Sorted, RadixSort.TiesInOrder, Countable, Counts, Codes, Room, LengthsFor, BestFor, NoLonger,
      Tallied, Thrifty, LimitedTo,
      CanonicalCodes.Count, CanonicalCodes.Start, CanonicalCodes.Limited, CodesFor, Pow2;
    var sorted, n := SortedSymbols(counts);
    ghost var a := sorted[..n];
    var keys := CodeLengths(sorted, n, counts);
    var numCodes := LimitedCounts(keys, limit, a);
    ghost var c := numCodes[..];
    sizes := AssignLengths(sorted, n, numCodes, limit, |counts|, counts);
    ghost var s := sizes[..];
    SameSpace(s, c, limit, limit);
    IsThrifty(s, counts, a, keys[..], c, limit);
    var nextCode := FirstCodes(sizes[..], numCodes, limit);
    codes := ReversedCodes(sizes[..], nextCode, limit);
  }
}
