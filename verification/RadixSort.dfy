// Sorting symbols by their 16-bit counts, one byte at a time, low byte first; the pass over the high byte is
// skipped if no count has one.
module RadixSort {

  datatype SymFreq = SymFreq(key: nat, sym: nat)

  const BUCKETS := 256

  function Digit(key: nat, pass: nat): (d: nat)
    ensures d < BUCKETS
  {
    if pass == 0 then key % 256 else (key / 256) % 256
  }

  ghost predicate Keys(s: seq<SymFreq>) { forall i :: 0 <= i < |s| ==> s[i].key < 65536 }

  // --- what one pass does: stable distribution ---------------------------------------------------

  // The elements with digit b, in their order.
  ghost function Bucket(s: seq<SymFreq>, pass: nat, b: nat): seq<SymFreq> {
    if |s| == 0 then []
    else Bucket(s[..|s| - 1], pass, b) + if Digit(s[|s| - 1].key, pass) == b then [s[|s| - 1]] else []
  }

  // The first b buckets, one after another.
  ghost function Buckets(s: seq<SymFreq>, pass: nat, b: nat): seq<SymFreq> {
    if b == 0 then [] else Buckets(s, pass, b - 1) + Bucket(s, pass, b - 1)
  }

  lemma Snoc(s: seq<SymFreq>, x: SymFreq, pass: nat, b: nat)
    ensures Bucket(s + [x], pass, b) == Bucket(s, pass, b) + if Digit(x.key, pass) == b then [x] else []
  {
    assert (s + [x])[..|s|] == s;
  }

  // One more element gets into its bucket.
  lemma {:induction false} Inserted(s: seq<SymFreq>, x: SymFreq, pass: nat, b: nat)
    ensures multiset(Buckets(s + [x], pass, b)) == multiset(Buckets(s, pass, b)) + if Digit(x.key, pass) < b
      then multiset{x}
      else multiset{}
    decreases b
  {
    hide Bucket, Digit;
    if b > 0 {
      Inserted(s, x, pass, b - 1);
      Snoc(s, x, pass, b - 1);
    }
  }

  lemma {:induction false} NoElements(pass: nat, b: nat)
    ensures Buckets([], pass, b) == []
  {
    if b > 0 { NoElements(pass, b - 1); }
  }

  lemma {:induction false} Permutes(s: seq<SymFreq>, pass: nat)
    ensures multiset(Buckets(s, pass, BUCKETS)) == multiset(s)
  {
    hide Buckets, Digit;
    if |s| == 0 {
      NoElements(pass, BUCKETS);
      assert s == [];
    } else {
      var t, x := s[..|s| - 1], s[|s| - 1];
      assert s == t + [x];
      Permutes(t, pass);
      Inserted(t, x, pass, BUCKETS);
    }
  }

  lemma SameLength(s: seq<SymFreq>, t: seq<SymFreq>)
    requires multiset(s) == multiset(t)
    ensures |s| == |t|
  {
    assert |multiset(s)| == |s| && |multiset(t)| == |t|;
  }

  lemma PassLength(s: seq<SymFreq>, pass: nat)
    ensures |Buckets(s, pass, BUCKETS)| == |s|
  {
    hide Buckets;
    Permutes(s, pass);
    SameLength(Buckets(s, pass, BUCKETS), s);
  }

  // --- what one pass is for: sorting by one more digit -------------------------------------------

  // The part of a key that p passes have looked at.
  function Part(key: nat, p: nat): nat { if p == 0 then 0 else if p == 1 then key % 256 else key }

  // x does not come after y; with ties, neither does it if their keys are the same and its symbol is smaller.
  ghost predicate InOrder(x: SymFreq, y: SymFreq, p: nat, ties: bool) {
    Part(x.key, p) < Part(y.key, p) || (Part(x.key, p) == Part(y.key, p) && (ties ==> x.sym <= y.sym))
  }

  ghost predicate SortedBy(s: seq<SymFreq>, p: nat, ties: bool) {
    forall i, j :: 0 <= i < j < |s| ==> InOrder(s[i], s[j], p, ties)
  }

  ghost predicate AllIn(s: seq<SymFreq>, t: seq<SymFreq>, pass: nat, b: nat) {
    forall x :: x in s ==> x in t && Digit(x.key, pass) == b
  }

  lemma EmptySorted(s: seq<SymFreq>, p: nat, b: nat, ties: bool)
    ensures SortedBy([], p, ties) && AllIn([], s, p, b)
  {
  }

  // No element of t comes after x.
  ghost predicate Last(t: seq<SymFreq>, x: SymFreq, p: nat, ties: bool) {
    forall y :: y in t ==> InOrder(y, x, p, ties)
  }

  lemma LastGreatest(s: seq<SymFreq>, t: seq<SymFreq>, x: SymFreq, p: nat, ties: bool)
    requires |s| > 0 && t == s[..|s| - 1] && x == s[|s| - 1] && SortedBy(s, p, ties)
    ensures SortedBy(t, p, ties) && Last(t, x, p, ties)
  {
    hide InOrder;
    assert forall i :: 0 <= i < |t| ==> t[i] == s[i];
  }

  lemma SortedMore(l: seq<SymFreq>, t: seq<SymFreq>, x: SymFreq, p: nat, b: nat, ties: bool)
    requires SortedBy(l, p, ties) && AllIn(l, t, p, b) && Last(t, x, p, ties)
    ensures SortedBy(l + [x], p, ties)
  {
    hide InOrder, Digit;
    assert forall i :: 0 <= i < |l| ==> l[i] in l;
  }

  lemma AllInMore(l: seq<SymFreq>, s: seq<SymFreq>, t: seq<SymFreq>, x: SymFreq, p: nat, b: nat)
    requires |s| > 0 && t == s[..|s| - 1] && x == s[|s| - 1] && AllIn(l, t, p, b)
    ensures AllIn(l, s, p, b) && (Digit(x.key, p) == b ==> AllIn(l + [x], s, p, b))
  {
    hide Digit;
  }

  lemma {:induction false} BucketSorted(s: seq<SymFreq>, p: nat, b: nat, ties: bool)
    requires SortedBy(s, p, ties)
    ensures SortedBy(Bucket(s, p, b), p, ties) && AllIn(Bucket(s, p, b), s, p, b)
  {
    hide Digit, Part, SortedBy, AllIn;
    if |s| > 0 {
      var t, x := s[..|s| - 1], s[|s| - 1];
      LastGreatest(s, t, x, p, ties);
      BucketSorted(t, p, b, ties);
      AllInMore(Bucket(t, p, b), s, t, x, p, b);
      if Digit(x.key, p) == b { SortedMore(Bucket(t, p, b), t, x, p, b, ties); }
          else { assert Bucket(t, p, b) + [] == Bucket(t, p, b); }
    } else {
      EmptySorted(s, p, b, ties);
    }
  }

  lemma DigitsOrder(x: SymFreq, y: SymFreq, p: nat, ties: bool)
    requires p < 2 && x.key < 65536 && y.key < 65536
    ensures Digit(x.key, p) < Digit(y.key, p) ==> InOrder(x, y, p + 1, ties)
    ensures Digit(x.key, p) == Digit(y.key, p) && InOrder(x, y, p, ties) ==> InOrder(x, y, p + 1, ties)
  {
  }

  ghost predicate AllBelow(s: seq<SymFreq>, t: seq<SymFreq>, pass: nat, b: nat) {
    forall x :: x in s ==> x in t && Digit(x.key, pass) < b
  }

  lemma KeysIn(s: seq<SymFreq>, x: SymFreq)
    requires Keys(s) && x in s
    ensures x.key < 65536
  {
  }

  lemma {:induction false} PassSorts(s: seq<SymFreq>, p: nat, b: nat, ties: bool)
    requires p < 2 && Keys(s) && SortedBy(s, p, ties)
    ensures SortedBy(Buckets(s, p, b), p + 1, ties) && AllBelow(Buckets(s, p, b), s, p, b)
    decreases b
  {
    hide Digit, InOrder, Bucket, Keys;
    if b > 0 {
      var l: seq<SymFreq>, r: seq<SymFreq> := Buckets(s, p, b - 1), Bucket(s, p, b - 1);
      PassSorts(s, p, b - 1, ties);
      BucketSorted(s, p, b - 1, ties);
      forall i: nat, j: nat | i < j < |l + r|
        ensures InOrder((l + r)[i], (l + r)[j], p + 1, ties)
      {
        if j >= |l| {
          var x, y := (l + r)[i], (l + r)[j];
          assert y == r[j - |l|] && y in r;
          assert if i < |l| then x == l[i] && x in l else x == r[i - |l|] && x in r;
          KeysIn(s, x);
          KeysIn(s, y);
          DigitsOrder(x, y, p, ties);
        }
      }
    }
  }

  // --- the pass ------------------------------------------------------------------------------------------------------

  lemma {:induction false} PrefixShorter(s: seq<SymFreq>, i: nat, pass: nat, b: nat)
    requires i <= |s|
    ensures |Bucket(s[..i], pass, b)| <= |Bucket(s, pass, b)|
    decreases |s| - i
  {
    if i < |s| {
      assert s[..i + 1][..i] == s[..i];
      PrefixShorter(s, i + 1, pass, b);
    } else {
      assert s[..i] == s;
    }
  }

  lemma {:induction false} StartsRise(s: seq<SymFreq>, pass: nat, a: nat, b: nat)
    requires a <= b
    ensures |Buckets(s, pass, a)| <= |Buckets(s, pass, b)|
    decreases b
  {
    if a < b { StartsRise(s, pass, a, b - 1); }
  }

  // Bucket b while the first i elements have been placed: it is filled up to off.
  ghost predicate Filled(out: seq<SymFreq>, s: seq<SymFreq>, i: nat, pass: nat, b: nat, off: nat) {
    var lo := |Buckets(s, pass, b)|;
    i <= |s| && lo <= off <= |out| && out[lo..off] == Bucket(s[..i], pass, b)
  }

  ghost predicate AllFilled(out: seq<SymFreq>, s: seq<SymFreq>, i: nat, pass: nat, offsets: seq<nat>) {
    |offsets| == BUCKETS && |out| == |s| && forall b :: 0 <= b < BUCKETS ==> Filled(out, s, i, pass, b, offsets[b])
  }

  lemma WhereTo(out: seq<SymFreq>, s: seq<SymFreq>, i: nat, pass: nat, b: nat, off: nat)
    requires Filled(out, s, i, pass, b, off) && i < |s| && Digit(s[i].key, pass) == b
    ensures |Buckets(s, pass, b)| <= off < |Buckets(s, pass, b + 1)|
  {
    assert s[..i + 1][..i] == s[..i];
    PrefixShorter(s, i + 1, pass, b);
  }

  lemma PlaceOne(out: seq<SymFreq>, s: seq<SymFreq>, i: nat, pass: nat, b: nat, off: nat)
    requires Filled(out, s, i, pass, b, off) && i < |s| && Digit(s[i].key, pass) == b && off < |out|
    ensures Filled(out[off := s[i]], s, i + 1, pass, b, off + 1)
  {
    var lo := |Buckets(s, pass, b)|;
    hide Buckets, Digit;
    assert s[..i + 1][..i] == s[..i];
    assert out[off := s[i]][lo..off + 1] == out[lo..off] + [s[i]];
  }

  lemma FilledBound(out: seq<SymFreq>, s: seq<SymFreq>, i: nat, pass: nat, b: nat, off: nat)
    requires Filled(out, s, i, pass, b, off)
    ensures |Buckets(s, pass, b)| <= off <= |Buckets(s, pass, b + 1)|
  {
    hide Digit;
    PrefixShorter(s, i, pass, b);
  }

  lemma Elsewhere(out: seq<SymFreq>, s: seq<SymFreq>, i: nat, pass: nat, b: nat, off: nat, pos: nat)
    requires Filled(out, s, i, pass, b, off) && i < |s| && Digit(s[i].key, pass) != b && pos < |out|
    requires pos < |Buckets(s, pass, b)| || off <= pos
    ensures Filled(out[pos := s[i]], s, i + 1, pass, b, off)
  {
    hide Digit, Buckets;
    var lo := |Buckets(s, pass, b)|;
    assert s[..i + 1][..i] == s[..i];
    assert out[pos := s[i]][lo..off] == out[lo..off];
  }

  lemma PlaceOther(out: seq<SymFreq>, s: seq<SymFreq>, i: nat, pass: nat, b: nat, off: nat, c: nat, pos: nat)
    requires Filled(out, s, i, pass, b, off) && i < |s| && Digit(s[i].key, pass) == c != b
    requires |Buckets(s, pass, c)| <= pos < |Buckets(s, pass, c + 1)| && pos < |out|
    ensures Filled(out[pos := s[i]], s, i + 1, pass, b, off)
  {
    hide Digit, Filled;
    FilledBound(out, s, i, pass, b, off);
    if c < b { StartsRise(s, pass, c + 1, b); } else { StartsRise(s, pass, b + 1, c); }
    Elsewhere(out, s, i, pass, b, off, pos);
  }

  lemma PlaceAny(out: seq<SymFreq>, s: seq<SymFreq>, i: nat, pass: nat, offsets: seq<nat>, b: nat)
    requires AllFilled(out, s, i, pass, offsets) && i < |s| && b < BUCKETS
    ensures var c := Digit(s[i].key, pass);
      && offsets[c] < |out|
      && Filled(out[offsets[c] := s[i]], s, i + 1, pass, b, if b == c then offsets[c] + 1 else offsets[b])
  {
    hide Filled, Buckets, Digit;
    var c := Digit(s[i].key, pass);
    var pos := offsets[c];
    assert Filled(out, s, i, pass, c, pos) && Filled(out, s, i, pass, b, offsets[b]);
    WhereTo(out, s, i, pass, c, pos);
    StartsRise(s, pass, c + 1, BUCKETS);
    PassLength(s, pass);
    if b == c { PlaceOne(out, s, i, pass, b, pos); } else { PlaceOther(out, s, i, pass, b, offsets[b], c, pos); }
  }

  lemma Placed(out: seq<SymFreq>, s: seq<SymFreq>, i: nat, pass: nat, offsets: seq<nat>)
    requires AllFilled(out, s, i, pass, offsets) && i < |s|
    ensures var c := Digit(s[i].key, pass);
      offsets[c] < |out| && AllFilled(out[offsets[c] := s[i]], s, i + 1, pass, offsets[c := offsets[c] + 1])
  {
    hide Filled, Buckets, Digit;
    var c := Digit(s[i].key, pass);
    PlaceAny(out, s, i, pass, offsets, c);
    forall b | 0 <= b < BUCKETS
      ensures Filled(out[offsets[c] := s[i]], s, i + 1, pass, b, if b == c then offsets[c] + 1 else offsets[b])
    {
      PlaceAny(out, s, i, pass, offsets, b);
    }
  }

  lemma {:induction false} AllPlaced(out: seq<SymFreq>, s: seq<SymFreq>, pass: nat, offsets: seq<nat>, b: nat)
    requires AllFilled(out, s, |s|, pass, offsets) && b <= BUCKETS
    ensures |Buckets(s, pass, b)| <= |out| && out[..|Buckets(s, pass, b)|] == Buckets(s, pass, b)
    decreases b
  {
    hide Digit, Bucket;
    if b > 0 {
      AllPlaced(out, s, pass, offsets, b - 1);
      assert s[..|s|] == s;
      assert Filled(out, s, |s|, pass, b - 1, offsets[b - 1]);
      var lo, off := |Buckets(s, pass, b - 1)|, offsets[b - 1];
      assert off == lo + |Bucket(s, pass, b - 1)|;
      assert out[..off] == out[..lo] + out[lo..off];
    }
  }

  lemma NothingPlaced(out: seq<SymFreq>, s: seq<SymFreq>, pass: nat, offsets: seq<nat>)
    requires |out| == |s| && |offsets| == BUCKETS
    requires forall b :: 0 <= b < BUCKETS ==> offsets[b] == |Buckets(s, pass, b)|
    ensures AllFilled(out, s, 0, pass, offsets)
  {
    PassLength(s, pass);
    forall b | 0 <= b < BUCKETS
      ensures Filled(out, s, 0, pass, b, offsets[b])
    {
      StartsRise(s, pass, b, BUCKETS);
      assert s[..0] == [];
    }
  }

  // How many elements have digit b.
  ghost predicate Histogram(hist: seq<nat>, s: seq<SymFreq>) {
    && |hist| == 2 * BUCKETS
    && (forall b :: 0 <= b < BUCKETS ==> hist[b] == |Bucket(s, 0, b)|)
    && forall b :: 0 <= b < BUCKETS ==> hist[BUCKETS + b] == |Bucket(s, 1, b)|
  }

  lemma HistogramNext(hist: seq<nat>, s: seq<SymFreq>, x: SymFreq)
    requires Histogram(hist, s)
    ensures var d0, d1 := Digit(x.key, 0), BUCKETS + Digit(x.key, 1);
      Histogram(hist[d0 := hist[d0] + 1][d1 := hist[d1] + 1], s + [x])
  {
    hide Bucket, Digit;
    forall b | 0 <= b < BUCKETS
      ensures |Bucket(s + [x], 0, b)| == |Bucket(s, 0, b)| + if Digit(x.key, 0) == b then 1 else 0
      ensures |Bucket(s + [x], 1, b)| == |Bucket(s, 1, b)| + if Digit(x.key, 1) == b then 1 else 0
    {
      Snoc(s, x, 0, b);
      Snoc(s, x, 1, b);
    }
  }

  lemma HistogramEmpty(hist: seq<nat>, s: seq<SymFreq>)
    requires |s| == 0 && |hist| == 2 * BUCKETS && forall b :: 0 <= b < 2 * BUCKETS ==> hist[b] == 0
    ensures Histogram(hist, s)
  {
  }

  method CountDigits(syms: array<SymFreq>, n: nat) returns (hist: array<nat>)
    requires n <= syms.Length
    ensures fresh(hist) && Histogram(hist[..], syms[..n])
  {
    hide Histogram, Digit;
    hist := new nat[2 * BUCKETS](_ => 0);
    HistogramEmpty(hist[..], syms[..0]);
    var i := 0;
    while i < n
      invariant 0 <= i <= n && hist.Length == 2 * BUCKETS && Histogram(hist[..], syms[..i])
    {
      ghost var was := hist[..];
      var freq := syms[i].key;
      var d0, d1 := Digit(freq, 0), BUCKETS + Digit(freq, 1);
      hist[d0] := hist[d0] + 1;
      hist[d1] := hist[d1] + 1;
      HistogramNext(was, syms[..i], syms[i]);
      assert hist[..] == was[d0 := was[d0] + 1][d1 := was[d1] + 1];
      assert syms[..i + 1] == syms[..i] + [syms[i]];
      i := i + 1;
    }
  }

  lemma HistogramAt(hist: seq<nat>, s: seq<SymFreq>, pass: nat, b: nat)
    requires Histogram(hist, s) && pass < 2 && b < BUCKETS
    ensures |hist| == 2 * BUCKETS && hist[BUCKETS * pass + b] == |Bucket(s, pass, b)|
  {
  }

  method BucketStarts(hist: array<nat>, pass: nat, ghost s: seq<SymFreq>) returns (offsets: array<nat>)
    requires pass < 2 && Histogram(hist[..], s)
    ensures fresh(offsets) && offsets.Length == BUCKETS
    ensures forall b :: 0 <= b < BUCKETS ==> offsets[b] == |Buckets(s, pass, b)|
  {
    hide Bucket, Histogram;
    HistogramAt(hist[..], s, pass, 0);
    offsets := new nat[BUCKETS];
    var curOfs, i := 0, 0;
    while i < BUCKETS
      invariant 0 <= i <= BUCKETS && curOfs == |Buckets(s, pass, i)|
      invariant forall b :: 0 <= b < i ==> offsets[b] == |Buckets(s, pass, b)|
    {
      offsets[i] := curOfs;
      HistogramAt(hist[..], s, pass, i);
      curOfs := curOfs + hist[BUCKETS * pass + i];
      i := i + 1;
    }
  }

  method Distribute(cur: array<SymFreq>, next: array<SymFreq>, n: nat, pass: nat, offsets: array<nat>)
    requires cur != next && n <= cur.Length && n <= next.Length && offsets.Length == BUCKETS
    requires forall b :: 0 <= b < BUCKETS ==> offsets[b] == |Buckets(cur[..n], pass, b)|
    modifies next, offsets
    ensures next[..n] == Buckets(old(cur[..n]), pass, BUCKETS)
  {
    hide AllFilled, Buckets, Digit;
    ghost var s := cur[..n];
    NothingPlaced(next[..n], s, pass, offsets[..]);
    var i := 0;
    while i < n
      invariant 0 <= i <= n && cur[..n] == s && AllFilled(next[..n], s, i, pass, offsets[..])
    {
      ghost var out, offs := next[..n], offsets[..];
      assert s[i] == cur[i];
      Placed(out, s, i, pass, offs);
      var d := Digit(cur[i].key, pass);
      next[offsets[d]] := cur[i];
      offsets[d] := offsets[d] + 1;
      assert next[..n] == out[offs[d] := s[i]] && offsets[..] == offs[d := offs[d] + 1];
      i := i + 1;
    }
    AllPlaced(next[..n], s, pass, offsets[..], BUCKETS);
    PassLength(s, pass);
    assert next[..n][..n] == next[..n];
  }

  // --- the sort ------------------------------------------------------------------------------------------------------

  ghost predicate Sorted(s: seq<SymFreq>) { forall i, j :: 0 <= i < j < |s| ==> s[i].key <= s[j].key }

  // Elements with the same key come in the order of their symbols; all elements do.
  ghost predicate TiesInOrder(s: seq<SymFreq>) {
    forall i, j :: 0 <= i < j < |s| && s[i].key == s[j].key ==> s[i].sym <= s[j].sym
  }

  ghost predicate SymbolsInOrder(s: seq<SymFreq>) { forall i, j :: 0 <= i < j < |s| ==> s[i].sym <= s[j].sym }

  // If all elements are in the first bucket of the high byte, the low byte decides.
  lemma {:induction false} HighZero(s: seq<SymFreq>)
    ensures |Bucket(s, 1, 0)| <= |s|
    ensures |Bucket(s, 1, 0)| == |s| ==> forall i :: 0 <= i < |s| ==> Digit(s[i].key, 1) == 0
  {
    if |s| > 0 { HighZero(s[..|s| - 1]); }
  }

  lemma LowDecides(s: seq<SymFreq>, t: seq<SymFreq>, ties: bool)
    requires Keys(s) && |Bucket(s, 1, 0)| == |s| && multiset(t) == multiset(s) && SortedBy(t, 1, ties)
    ensures Sorted(t) && (ties ==> TiesInOrder(t))
  {
    HighZero(s);
    forall x | x in t
      ensures Part(x.key, 1) == x.key
    {
      assert x in multiset(t) && x in multiset(s) && x in s;
    }
    hide Bucket, Part, Digit;
    assert forall i :: 0 <= i < |t| ==> t[i] in t;
  }

  lemma SamePermutation(s: seq<SymFreq>, t: seq<SymFreq>)
    requires Keys(s) && multiset(t) == multiset(s)
    ensures Keys(t)
  {
    forall i | 0 <= i < |t|
      ensures t[i].key < 65536
    {
      assert t[i] in multiset(t) && t[i] in multiset(s) && t[i] in s;
    }
  }

  lemma TwoPasses(s: seq<SymFreq>, ties: bool)
    requires Keys(s) && (ties ==> SymbolsInOrder(s))
    ensures var t := Buckets(s, 0, BUCKETS); multiset(t) == multiset(s) && SortedBy(t, 1, ties)
    ensures var u := Buckets(Buckets(s, 0, BUCKETS), 1, BUCKETS);
      multiset(u) == multiset(s) && Sorted(u) && (ties ==> TiesInOrder(u))
  {
    hide Buckets, Digit;
    var t := Buckets(s, 0, BUCKETS);
    Permutes(s, 0);
    PassSorts(s, 0, BUCKETS, ties);
    SamePermutation(s, t);
    Permutes(t, 1);
    PassSorts(t, 1, BUCKETS, ties);
  }

  lemma RestSame(s: seq<SymFreq>, t: seq<SymFreq>, j: nat)
    requires multiset(s) == multiset(t) && |s| > 0 && j < |t| && t[j] == s[|s| - 1]
    ensures multiset(s[..|s| - 1]) == multiset(t[..j] + t[j + 1..])
  {
    var x := t[j];
    assert t == t[..j] + [x] + t[j + 1..];
    assert s == s[..|s| - 1] + [x];
    var a, b := multiset(s[..|s| - 1]), multiset(t[..j]) + multiset(t[j + 1..]);
    assert multiset(s) == a + multiset{x} && multiset(t) == b + multiset{x};
    assert a == multiset(s) - multiset{x} && b == multiset(t) - multiset{x};
  }

  lemma {:induction false} SameSizes(s: seq<SymFreq>, t: seq<SymFreq>, b: nat)
    requires multiset(s) == multiset(t)
    ensures |Bucket(s, 1, b)| == |Bucket(t, 1, b)|
    decreases |s|
  {
    hide Digit;
    SameLength(s, t);
    if |s| > 0 {
      var x := s[|s| - 1];
      assert x in multiset(s) && x in multiset(t);
      var j :| 0 <= j < |t| && t[j] == x;
      RestSame(s, t, j);
      SameSizes(s[..|s| - 1], t[..j] + t[j + 1..], b);
      BucketRemoved(t, j, b);
    }
  }

  lemma {:induction false} BucketRemoved(t: seq<SymFreq>, j: nat, b: nat)
    requires j < |t|
    ensures |Bucket(t, 1, b)| == |Bucket(t[..j] + t[j + 1..], 1, b)| + if Digit(t[j].key, 1) == b then 1 else 0
    decreases |t|
  {
    hide Digit;
    var n := |t| - 1;
    var rest := t[..j] + t[j + 1..];
    if j == n {
      assert rest == t[..n];
    } else {
      BucketRemoved(t[..n], j, b);
      assert rest[..n - 1] == t[..n][..j] + t[..n][j + 1..] && rest[n - 1] == t[n];
    }
  }

  lemma {:induction false} StartsSame(s: seq<SymFreq>, t: seq<SymFreq>, b: nat)
    requires multiset(s) == multiset(t)
    ensures |Buckets(s, 1, b)| == |Buckets(t, 1, b)|
    decreases b
  {
    hide Bucket;
    if b > 0 {
      StartsSame(s, t, b - 1);
      SameSizes(s, t, b - 1);
    }
  }

  // The histograms are of the order the elements come in at first; the pass over the high byte uses them on
  // the order the first pass has left. The result is in one of the two arrays.
  method RadixSort(syms0: array<SymFreq>, syms1: array<SymFreq>, n: nat) returns (sorted: array<SymFreq>)
    requires syms0 != syms1 && n <= syms0.Length && n <= syms1.Length && Keys(syms0[..n])
    modifies syms0, syms1
    ensures (sorted == syms0 || sorted == syms1) && Sorted(sorted[..n])
      && multiset(sorted[..n]) == multiset(old(syms0[..n]))
    ensures SymbolsInOrder(old(syms0[..n])) ==> TiesInOrder(sorted[..n])
  {
    hide Keys, Sorted, Bucket, Buckets, SortedBy, TiesInOrder, SymbolsInOrder;
    ghost var s := syms0[..n];
    ghost var t := Buckets(s, 0, BUCKETS);
    ghost var ties := SymbolsInOrder(s);
    TwoPasses(s, ties);
    var hist := CountDigits(syms0, n);
    assert hist.Length == 2 * BUCKETS && hist[..][BUCKETS + 0] == |Bucket(s, 1, 0)|;
    var totalPasses := if n == hist[BUCKETS] then 1 else 2;
    var offsets := BucketStarts(hist, 0, s);
    Distribute(syms0, syms1, n, 0, offsets);
    if totalPasses == 1 {
      LowDecides(s, t, ties);
      return syms1;
    }
    offsets := BucketStarts(hist, 1, s);
    forall b | 0 <= b < BUCKETS ensures |Buckets(s, 1, b)| == |Buckets(t, 1, b)| { StartsSame(s, t, b); }
    Distribute(syms1, syms0, n, 1, offsets);
    return syms0;
  }
}
