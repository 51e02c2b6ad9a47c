// Sums over code lengths: Kraft's sum, the total length of a coded text, and the step by which Huffman's
// argument compares an arbitrary code with a greedily built one.
module PrefixCodes {

  function Pow2(n: nat): (r: nat)
    ensures r > 0
  {
    if n == 0 then 1 else 2 * Pow2(n - 1)
  }

  function Sum(s: seq<nat>): nat {
    if s == [] then 0 else s[0] + Sum(s[1..])
  }

  // An assignment of code lengths to items; -1 means that the item takes no part.
  ghost predicate Bounded(s: seq<int>, m: nat) { forall i :: 0 <= i < |s| ==> s[i] <= m }

  function Share(x: int, m: nat): nat
    requires x <= m
  {
    if x < 0 then 0 else Pow2(m - x)
  }

  // Kraft's sum, scaled by 2^m.
  function Kraft(s: seq<int>, m: nat): nat
    requires Bounded(s, m)
  {
    if s == [] then 0 else Share(s[0], m) + Kraft(s[1..], m)
  }

  function Price(v: nat, x: int): nat { if x < 0 then 0 else v * x }

  // The total length of a text in which item i occurs v[i] times.
  function Cost(v: seq<nat>, s: seq<int>): nat
    requires |v| == |s|
  {
    if s == [] then 0 else Price(v[0], s[0]) + Cost(v[1..], s[1..])
  }

  lemma {:induction false} SumConcat(a: seq<nat>, b: seq<nat>)
    ensures Sum(a + b) == Sum(a) + Sum(b)
  {
    if a == [] {
      assert a + b == b;
    } else {
      assert (a + b)[1..] == a[1..] + b;
      SumConcat(a[1..], b);
    }
  }

  lemma SumSplit(s: seq<nat>, i: nat)
    requires i <= |s|
    ensures Sum(s) == Sum(s[..i]) + Sum(s[i..])
    ensures i < |s| ==> Sum(s[i..]) == s[i] + Sum(s[i + 1..])
  {
    assert s == s[..i] + s[i..];
    SumConcat(s[..i], s[i..]);
    if i < |s| { assert s[i..][1..] == s[i + 1..]; }
  }

  lemma {:induction false} KraftConcat(a: seq<int>, b: seq<int>, m: nat)
    requires Bounded(a, m) && Bounded(b, m)
    ensures Bounded(a + b, m) && Kraft(a + b, m) == Kraft(a, m) + Kraft(b, m)
  {
    if a == [] {
      assert a + b == b;
    } else {
      assert (a + b)[0] == a[0] && (a + b)[1..] == a[1..] + b;
      KraftConcat(a[1..], b, m);
    }
  }

  lemma {:induction false} KraftUpdate(s: seq<int>, i: nat, x: int, m: nat)
    requires i < |s| && Bounded(s, m) && x <= m
    ensures Bounded(s[i := x], m) && Kraft(s[i := x], m) == Kraft(s, m) - Share(s[i], m) + Share(x, m)
  {
    var t := s[i := x];
    if i == 0 {
      assert t[1..] == s[1..];
    } else {
      assert t[1..] == s[1..][i - 1 := x];
      KraftUpdate(s[1..], i - 1, x, m);
    }
  }

  lemma {:induction false} CostUpdate(v: seq<nat>, s: seq<int>, i: nat, x: int)
    requires i < |s| == |v|
    ensures Cost(v, s[i := x]) == Cost(v, s) - Price(v[i], s[i]) + Price(v[i], x)
  {
    var t := s[i := x];
    if i == 0 {
      assert t[1..] == s[1..];
    } else {
      assert t[1..] == s[1..][i - 1 := x];
      CostUpdate(v[1..], s[1..], i - 1, x);
    }
  }

  // Pow2(a) divides Pow2(b).
  lemma {:induction false} PowDivides(a: nat, b: nat) returns (q: nat)
    requires a <= b
    ensures Pow2(b) == q * Pow2(a)
  {
    if a == b {
      q := 1;
    } else {
      var p := PowDivides(a, b - 1);
      q := 2 * p;
    }
  }

  lemma DivModIs(x: nat, d: nat, q: nat, r: nat)
    requires d > 0 && r < d && x == q * d + r
    ensures x / d == q && x % d == r
  {
    var q', r' := x / d, x % d;
    assert x == q' * d + r' && 0 <= r' < d && q' >= 0;
    AddMultiples(q, 1, d);
    AddMultiples(q', 1, d);
    if q' < q { MulMono(q' + 1, q, d); }
    if q < q' { MulMono(q + 1, q', d); }
  }

  lemma ModShift(x: nat, q: nat, d: nat)
    requires d > 0
    ensures (x + q * d) % d == x % d
  {
    AddMultiples(x / d, q, d);
    DivModIs(x + q * d, d, x / d + q, x % d);
  }

  lemma ModAdd(x: nat, y: nat, d: nat)
    requires d > 0
    ensures (x % d + y) % d == (x + y) % d
  {
    DivModParts(x, d);
    ModShift(x % d + y, x / d, d);
  }

  lemma DivModParts(x: nat, d: nat)
    requires d > 0
    ensures x == (x / d) * d + x % d
  {
  }

  lemma AddMultiples(p: nat, q: nat, d: nat)
    ensures p * d + q * d == (p + q) * d
  {
  }

  lemma MulMono(p: nat, q: nat, d: nat)
    requires p <= q
    ensures p * d <= q * d
  {
  }

  // Every share of a code no longer than top is a multiple of the share of top.
  lemma {:induction false} KraftMultiple(s: seq<int>, top: nat, m: nat) returns (q: nat)
    requires Bounded(s, top) && top <= m
    ensures Bounded(s, m) && Kraft(s, m) == q * Pow2(m - top)
  {
    if s == [] {
      q := 0;
    } else {
      var p := KraftMultiple(s[1..], top, m);
      var r := 0;
      if s[0] >= 0 { r := PowDivides(m - top, m - s[0]); }
      AddMultiples(r, p, Pow2(m - top));
      q := r + p;
    }
  }

  lemma Gap(p: nat, q: nat, d: nat)
    requires p * d < q * d
    ensures p * d + d <= q * d
  {
    if q <= p { MulMono(q, p, d); }
    MulMono(p + 1, q, d);
    AddMultiples(p, 1, d);
  }

  // --- the greedy step -------------------------------------------------------------------------------------

  function Swap(s: seq<int>, i: nat, j: nat): seq<int>
    requires i < |s| && j < |s|
  {
    s[i := s[j]][j := s[i]]
  }

  lemma SwapSums(v: seq<nat>, s: seq<int>, i: nat, j: nat, m: nat)
    requires |v| == |s| && i < |s| && j < |s| && Bounded(s, m) && s[i] >= 0 && s[j] >= 0
      && (i == j || (v[i] <= v[j] && s[i] <= s[j]))
    ensures Bounded(Swap(s, i, j), m) && Kraft(Swap(s, i, j), m) == Kraft(s, m)
    ensures Cost(v, Swap(s, i, j)) <= Cost(v, s)
  {
    KraftUpdate(s, i, s[j], m);
    KraftUpdate(s[i := s[j]], j, s[i], m);
    CostUpdate(v, s, i, s[j]);
    CostUpdate(v, s[i := s[j]], j, s[i]);
    if i != j { Exchange(v[i], v[j], s[i], s[j]); }
  }

  lemma Exchange(a: nat, b: nat, x: nat, y: nat)
    requires a <= b && x <= y
    ensures a * y + b * x <= a * x + b * y
  {
    assert a * y + b * x + (b - a) * (y - x) == a * x + b * y;
  }

  // The participating item with the longest code, not counting item x.
  lemma {:induction false} Longest(s: seq<int>, x: int) returns (a: nat)
    requires exists i :: 0 <= i < |s| && i != x && s[i] >= 0
    ensures a < |s| && a != x && s[a] >= 0 && forall i :: 0 <= i < |s| && i != x ==> s[i] <= s[a]
  {
    var n := |s| - 1;
    if i :| 0 <= i < n && i != x && s[i] >= 0 {
      assert s[..n][i] >= 0;
      a := Longest(s[..n], x);
      assert s[..n][a] == s[a];
      forall j | 0 <= j < n && j != x ensures s[j] <= s[a] { assert s[..n][j] == s[j]; }
      if n != x && s[n] > s[a] { a := n; }
    } else {
      a := n;
    }
  }

  // Among the items of s, x and y are two with the least weights.
  ghost predicate Lightest(v: seq<nat>, s: seq<int>, x: nat, y: nat) {
    && |v| == |s| && x < |s| && y < |s| && x != y && s[x] >= 0 && s[y] >= 0
    && forall i :: 0 <= i < |s| && i != x && i != y && s[i] >= 0 ==> v[x] <= v[i] && v[y] <= v[i]
  }

  // Two lightest items can be given the longest codes, at no cost ...
  lemma Sink(v: seq<nat>, s: seq<int>, x: nat, y: nat, m: nat) returns (t: seq<int>)
    requires Lightest(v, s, x, y) && v[x] <= v[y] && Bounded(s, m)
    ensures Lightest(v, t, x, y) && Bounded(t, m) && Kraft(t, m) == Kraft(s, m) && Cost(v, t) <= Cost(v, s)
    ensures forall i :: 0 <= i < |s| ==> (t[i] >= 0 <==> s[i] >= 0)
    ensures t[x] >= t[y] && forall i :: 0 <= i < |s| && i != x ==> t[i] <= t[y]
  {
    hide Kraft, Cost;
    assert s[x] >= 0;
    var a := Longest(s, -1);
    SwapSums(v, s, x, a, m);
    var u := Swap(s, x, a);
    assert u[y] >= 0;
    var b := Longest(u, x);
    SwapSums(v, u, y, b, m);
    t := Swap(u, y, b);
  }

  // ... then equally long codes ...
  lemma Level(s: seq<int>, x: nat, y: nat, m: nat)
    requires x < |s| && y < |s| && x != y && Bounded(s, m) && s[y] >= 0 && s[x] >= s[y]
    requires forall i :: 0 <= i < |s| && i != x ==> s[i] <= s[y]
    requires Kraft(s, m) <= Pow2(m)
    ensures Bounded(s[x := s[y]], m) && Kraft(s[x := s[y]], m) <= Pow2(m) && s[y] > 0
  {
    var others := s[x := -1];
    KraftUpdate(s, x, -1, m);
    KraftUpdate(s, x, s[y], m);
    var top: nat := s[y];
    var p := KraftMultiple(others, top, m);
    var q := PowDivides(m - top, m);
    Gap(p, q, Pow2(m - top));
    KraftUpdate(others, y, -1, m);
  }

  // ... and then be merged into one item z, whose code is one shorter: the cost drops by their weight.
  lemma Merge(v: seq<nat>, s: seq<int>, x: nat, y: nat, z: nat, m: nat) returns (t: seq<int>)
    requires Lightest(v, s, x, y) && v[x] <= v[y] && Bounded(s, m) && Kraft(s, m) <= Pow2(m)
    requires z < |s| && s[z] < 0 && v[z] == v[x] + v[y]
    ensures |t| == |s| && Bounded(t, m) && Kraft(t, m) <= Pow2(m)
    ensures forall i :: 0 <= i < |s| ==> (t[i] >= 0 <==> i == z || (i != x && i != y && s[i] >= 0))
    ensures Cost(v, t) + v[z] <= Cost(v, s)
  {
    var u := Sink(v, s, x, y, m);
    Level(u, x, y, m);
    var len: nat := u[y];
    var r := u[x := len];
    CostUpdate(v, u, x, len);
    assert Cost(v, r) <= Cost(v, u) by { Longer(v[x], len, u[x]); }
    KraftUpdate(r, x, -1, m);
    KraftUpdate(r[x := -1], y, -1, m);
    KraftUpdate(r[x := -1][y := -1], z, len - 1, m);
    CostUpdate(v, r, x, -1);
    CostUpdate(v, r[x := -1], y, -1);
    CostUpdate(v, r[x := -1][y := -1], z, len - 1);
    t := r[x := -1][y := -1][z := len - 1];
    Distribute(v[x], v[y], len);
    assert Share(len - 1, m) == 2 * Share(len, m);
  }

  lemma Longer(v: nat, a: nat, b: nat)
    requires a <= b
    ensures v * a <= v * b
  {
  }

  lemma Distribute(a: nat, b: nat, len: nat)
    requires len > 0
    ensures (a + b) * (len - 1) + (a + b) == a * len + b * len
  {
  }

  // --- changing the scale -----------------------------------------------------------------------------------------

  lemma {:induction false} PowAdd(a: nat, b: nat)
    ensures Pow2(a + b) == Pow2(a) * Pow2(b)
  {
    if b > 0 { PowAdd(a, b - 1); }
  }

  lemma {:induction false} KraftScale(s: seq<int>, m: nat, e: nat)
    requires Bounded(s, m)
    ensures Bounded(s, m + e) && Kraft(s, m + e) == Kraft(s, m) * Pow2(e)
  {
    if s != [] {
      KraftScale(s[1..], m, e);
      if s[0] >= 0 { PowAdd(m - s[0], e); }
      AddMultiples(Share(s[0], m), Kraft(s[1..], m), Pow2(e));
    }
  }

  // lens is a complete code: Kraft's sum is exactly one.
  ghost predicate Full(lens: seq<nat>) { forall m: nat :: Bounded(lens, m) ==> Kraft(lens, m) == Pow2(m) }

  lemma FullAt(lens: seq<nat>, n: nat)
    requires Bounded(lens, n) && Kraft(lens, n) == Pow2(n)
    ensures Full(lens)
  {
    forall m: nat | Bounded(lens, m)
      ensures Kraft(lens, m) == Pow2(m)
    {
      if m >= n {
        KraftScale(lens, n, m - n);
        PowAdd(n, m - n);
      } else {
        KraftScale(lens, m, n - m);
        PowAdd(m, n - m);
        Cancel(Kraft(lens, m), Pow2(m), Pow2(n - m));
      }
    }
  }

  lemma Cancel(a: nat, b: nat, d: nat)
    requires d > 0 && a * d == b * d
    ensures a == b
  {
    AddMultiples(a, 1, d);
    AddMultiples(b, 1, d);
    if a < b { MulMono(a + 1, b, d); }
    if b < a { MulMono(b + 1, a, d); }
  }

  // A sequence of code lengths for which a prefix code exists.
  ghost predicate Code(l: seq<nat>, m: nat) { Bounded(l, m) && Kraft(l, m) <= Pow2(m) }

  // No prefix code makes a text with symbol counts w shorter than lens does.
  ghost predicate Optimal(w: seq<nat>, lens: seq<nat>) {
    |lens| == |w| && forall l: seq<nat>, m: nat :: |l| == |w| && Code(l, m) ==> Cost(w, lens) <= Cost(w, l)
  }
}
