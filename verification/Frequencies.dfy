// Scaling symbol frequencies down to 16 bits. The loop at the end shrinks the frequencies given, not the scaled
// ones, so the sum of the scaled ones may exceed 65535, but by no more than the number of used symbols.
module Frequencies {
  import opened PrefixCodes

  const MAX16 := 65535

  // What a frequency f out of total becomes.
  function Scaled(f: nat, total: nat): nat {
    if f == 0 || total == 0 then 0 else if f * MAX16 / total < 1 then 1 else f * MAX16 / total
  }

  ghost function UsedIn(s: seq<nat>, n: nat): nat
    requires n <= |s|
  {
    if n == 0 then 0 else UsedIn(s, n - 1) + if s[n - 1] > 0 then 1 else 0
  }

  lemma {:induction false} UsedBound(s: seq<nat>, n: nat)
    requires n <= |s|
    ensures UsedIn(s, n) <= n
  {
    if n > 0 { UsedBound(s, n - 1); }
  }

  lemma SumNext(s: seq<nat>, n: nat)
    requires n < |s|
    ensures Sum(s[..n + 1]) == Sum(s[..n]) + s[n]
  {
    SumSplit(s[..n + 1], n);
    assert s[..n + 1][..n] == s[..n] && s[..n + 1][n + 1..] == [];
  }

  lemma FloorAdd(x: nat, y: nat, total: nat)
    requires total > 0
    ensures x / total + y / total <= (x + y) / total
  {
    DivModParts(x, total);
    DivModParts(y, total);
    DivModParts(x + y, total);
    var p, q, r := x / total, y / total, (x + y) / total;
    AddMultiples(p, q, total);
    AddMultiples(r, 1, total);
    if r < p + q { MulMono(r + 1, p + q, total); }
  }

  lemma FloorOne(f: nat, total: nat)
    requires total > 0 && f <= total
    ensures f * MAX16 / total <= MAX16
  {
    MulMono(f, total, MAX16);
    DivModParts(f * MAX16, total);
    var q := f * MAX16 / total;
    assert total * MAX16 == MAX16 * total;
    AddMultiples(MAX16, 1, total);
    if q > MAX16 { MulMono(MAX16 + 1, q, total); }
  }

  lemma ScaledOne(f: nat, total: nat)
    requires total > 0
    ensures Scaled(f, total) <= f * MAX16 / total + if f > 0 then 1 else 0
    ensures f > 0 ==> Scaled(f, total) > 0
  {
  }

  // The share of all 65535 that a sum of frequencies gets.
  function Portion(x: nat, total: nat): nat
    requires total > 0
  {
    x * MAX16 / total
  }

  lemma PortionAdd(x: nat, f: nat, total: nat)
    requires total > 0
    ensures Portion(x, total) + Scaled(f, total) <= Portion(x + f, total) + if f > 0 then 1 else 0
  {
    ScaledOne(f, total);
    AddMultiples(x, f, MAX16);
    FloorAdd(x * MAX16, f * MAX16, total);
  }

  lemma {:induction false} ScaledSum(freq: seq<nat>, freq16: seq<nat>, n: nat, total: nat)
    requires n <= |freq| == |freq16| && total > 0 && forall i :: 0 <= i < n ==> freq16[i] == Scaled(freq[i], total)
    ensures Sum(freq16[..n]) <= Portion(Sum(freq[..n]), total) + UsedIn(freq, n)
    decreases n
  {
    hide Scaled, Portion, Sum;
    if n == 0 {
      assert |freq16[..0]| == |freq[..0]| == 0;
      SumNone(freq16[..0]);
    } else {
      ScaledSum(freq, freq16, n - 1, total);
      SumNext(freq, n - 1);
      SumNext(freq16, n - 1);
      PortionAdd(Sum(freq[..n - 1]), freq[n - 1], total);
    }
  }

  lemma SumNone(s: seq<nat>)
    requires |s| == 0
    ensures Sum(s) == 0
  {
  }

  lemma ElementBound(freq: seq<nat>, i: nat)
    requires i < |freq|
    ensures freq[i] <= Sum(freq)
  {
    SumSplit(freq, i);
  }

  lemma AllScaled(freq: seq<nat>, freq16: seq<nat>, total: nat)
    requires |freq| == |freq16| && total == Sum(freq) > 0
    requires forall i :: 0 <= i < |freq| ==> freq16[i] == Scaled(freq[i], total)
    ensures Sum(freq16) <= MAX16 + UsedIn(freq, |freq|) && forall i :: 0 <= i < |freq| ==> freq16[i] <= MAX16
  {
    ScaledSum(freq, freq16, |freq|, total);
    assert freq[..|freq|] == freq && freq16[..|freq|] == freq16;
    FloorOne(total, total);
    forall i | 0 <= i < |freq|
      ensures freq16[i] <= MAX16
    {
      ElementBound(freq, i);
      FloorOne(freq[i], total);
    }
  }

  method Total(freq: array<nat>) returns (total: nat)
    ensures total == Sum(freq[..])
  {
    total := 0;
    assert freq[..0] == [];
    var i := 0;
    while i < freq.Length
      invariant 0 <= i <= freq.Length && total == Sum(freq[..i])
    {
      SumNext(freq[..], i);
      assert freq[..][..i + 1] == freq[..i + 1] && freq[..][..i] == freq[..i];
      total := total + freq[i];
      i := i + 1;
    }
    assert freq[..i] == freq[..];
  }

  // --- the loop that shrinks the frequencies -----------------------------------------------------

  function Halved(f: nat): nat { if f == 0 then 0 else if f / 2 < 1 then 1 else f / 2 }

  // Halving makes the sum smaller, unless it is the number of used symbols already.
  lemma {:induction false} HalvedSum(freq: seq<nat>, half: seq<nat>, n: nat)
    requires n <= |freq| == |half| && forall i :: 0 <= i < n ==> half[i] == Halved(freq[i])
    ensures Sum(half[..n]) <= Sum(freq[..n])
    ensures Sum(freq[..n]) > n ==> Sum(half[..n]) < Sum(freq[..n])
    ensures Sum(half[..n]) == Sum(freq[..n]) ==> Sum(half[..n]) <= n
    decreases n
  {
    if n == 0 {
      assert half[..0] == [] && freq[..0] == [];
    } else {
      HalvedSum(freq, half, n - 1);
      SumNext(freq, n - 1);
      SumNext(half, n - 1);
    }
  }

  method Halve(freq: array<nat>) returns (total: nat)
    modifies freq
    ensures total == Sum(freq[..]) <= Sum(old(freq[..]))
    ensures Sum(old(freq[..])) > freq.Length ==> total < Sum(old(freq[..]))
    ensures total == Sum(old(freq[..])) ==> total <= freq.Length
  {
    ghost var was := freq[..];
    total := 0;
    assert freq[..0] == [];
    var i := 0;
    while i < freq.Length
      invariant 0 <= i <= freq.Length && total == Sum(freq[..i])
      invariant forall j :: 0 <= j < i ==> freq[j] == Halved(was[j])
      invariant forall j :: i <= j < freq.Length ==> freq[j] == was[j]
    {
      ghost var done := freq[..i];
      if freq[i] != 0 {
        freq[i] := if freq[i] / 2 < 1 then 1 else freq[i] / 2;
        total := total + freq[i];
      }
      assert freq[..i] == done;
      SumNext(freq[..], i);
      assert freq[..][..i + 1] == freq[..i + 1] && freq[..][..i] == freq[..i];
      i := i + 1;
    }
    HalvedSum(was, freq[..], |was|);
    assert was[..|was|] == was && freq[..][..|was|] == freq[..] == freq[..i];
  }

  // Frequencies as 16-bit counts: a symbol is counted exactly if it occurs.
  ghost predicate Scales(freq: seq<nat>, freq16: seq<nat>) {
    && |freq16| == |freq| && Sum(freq16) <= MAX16 + UsedIn(freq, |freq|)
    && forall i :: 0 <= i < |freq| ==> freq16[i] <= MAX16 && (freq16[i] > 0 <==> freq[i] > 0)
  }

  lemma {:induction false} AllZero(freq: seq<nat>)
    requires forall i :: 0 <= i < |freq| ==> freq[i] == 0
    ensures Sum(freq) == 0
  {
    if |freq| > 0 { AllZero(freq[1..]); }
  }

  lemma NothingUsed(freq: seq<nat>, freq16: seq<nat>)
    requires Sum(freq) == 0 && |freq16| == |freq| && forall i :: 0 <= i < |freq| ==> freq16[i] == 0
    ensures Scales(freq, freq16)
  {
    AllZero(freq16);
    forall i | 0 <= i < |freq| ensures freq[i] == 0 { ElementBound(freq, i); }
  }

  lemma NothingShared(freq: seq<nat>, freq16: seq<nat>)
    requires Sum(freq) == 0 && |freq16| == |freq| && forall i :: 0 <= i < |freq| ==> freq16[i] == 0
    ensures Shares(freq, freq16)
  {
    hide Sum;
  }

  lemma Scaling(freq: seq<nat>, freq16: seq<nat>, total: nat)
    requires |freq| == |freq16| && total == Sum(freq) > 0
    requires forall i :: 0 <= i < |freq| ==> freq16[i] == Scaled(freq[i], total)
    ensures Scales(freq, freq16)
  {
    AllScaled(freq, freq16, total);
  }

  // --- when the scaled sum fits 16 bits ----------------------------------------------------------

  // A used symbol whose share of 65535 is less than one, which is rounded up.
  predicate Rare(f: nat, total: nat) { 0 < f * MAX16 < total }

  function RareIn(freq: seq<nat>, total: nat, n: nat): nat
    requires n <= |freq|
  {
    if n == 0 then 0 else RareIn(freq, total, n - 1) + if Rare(freq[n - 1], total) then 1 else 0
  }

  // What rounding down takes from the shares, in units of 1 / total.
  function LostIn(freq: seq<nat>, total: nat, n: nat): nat
    requires n <= |freq| && total > 0
  {
    if n == 0 then 0 else LostIn(freq, total, n - 1) + freq[n - 1] * MAX16 % total
  }

  lemma ScaledExact(f: nat, total: nat)
    requires total > 0
    ensures total * Scaled(f, total) == f * MAX16 - f * MAX16 % total + if Rare(f, total) then total else 0
  {
    var x := f * MAX16;
    DivModParts(x, total);
    if x < total { SmallShare(x, total); } else { LargeShare(x, total); }
  }

  lemma SmallShare(x: nat, total: nat)
    requires x < total
    ensures x / total == 0 && x % total == x
  {
  }

  lemma LargeShare(x: nat, total: nat)
    requires 0 < total <= x
    ensures x / total >= 1
  {
    DivModParts(x, total);
    var q := x / total;
    assert q == 0 ==> q * total == 0;
  }

  lemma OneMoreExact(total: nat, sum16: nat, f16: nat, sum: nat, f: nat, lost: nat, l: nat, rare: nat, r: nat)
    requires total * sum16 == sum * MAX16 - lost + total * rare && total * f16 == f * MAX16 - l + total * r
    ensures total * (sum16 + f16) == (sum + f) * MAX16 - (lost + l) + total * (rare + r)
  {
    AddMultiples(sum16, f16, total);
    AddMultiples(rare, r, total);
  }

  lemma FitsWhen(total: nat, sum16: nat, lost: nat, rare: nat)
    requires total > 0 && total * sum16 == total * MAX16 - lost + total * rare
    ensures sum16 <= MAX16 <==> total * rare <= lost
  {
    if sum16 <= MAX16 {
      MulMono(sum16, MAX16, total);
    } else {
      MulMono(MAX16 + 1, sum16, total);
    }
  }

  lemma {:induction false} SumExact(freq: seq<nat>, freq16: seq<nat>, n: nat, total: nat)
    requires n <= |freq| == |freq16| && total > 0 && forall i :: 0 <= i < n ==> freq16[i] == Scaled(freq[i], total)
    ensures total * Sum(freq16[..n]) == Sum(freq[..n]) * MAX16 - LostIn(freq, total, n) + total * RareIn(freq, total, n)
    decreases n
  {
    hide Scaled, Sum, Rare;
    if n == 0 {
      assert |freq16[..0]| == |freq[..0]| == 0;
      SumNone(freq16[..0]);
      SumNone(freq[..0]);
    } else {
      SumExact(freq, freq16, n - 1, total);
      SumNext(freq, n - 1);
      SumNext(freq16, n - 1);
      var f := freq[n - 1];
      ScaledExact(f, total);
      OneMoreExact(total, Sum(freq16[..n - 1]), freq16[n - 1], Sum(freq[..n - 1]), f, LostIn(freq, total, n - 1),
          f * MAX16 % total,
        RareIn(freq, total, n - 1), if Rare(f, total) then 1 else 0);
    }
  }

  // The scaled frequencies are the shares of 65535 rounded down, or up to one.
  ghost predicate Shares(freq: seq<nat>, freq16: seq<nat>) {
    |freq16| == |freq| && forall i :: 0 <= i < |freq| ==> freq16[i] == Scaled(freq[i], Sum(freq))
  }

  // The scaled sum fits 16 bits exactly if what rounding up adds for the rare symbols is no more than what rounding
  // down takes from the others.
  lemma SumFitsWhen(freq: seq<nat>, freq16: seq<nat>)
    requires Shares(freq, freq16) && Sum(freq) > 0
    ensures var total := Sum(freq);
      Sum(freq16) <= MAX16 <==> total * RareIn(freq, total, |freq|) <= LostIn(freq, total, |freq|)
  {
    hide Sum, Scaled, Rare, LostIn, RareIn;
    var total, n := Sum(freq), |freq|;
    SumExact(freq, freq16, n, total);
    assert freq[..n] == freq && freq16[..n] == freq16;
    FitsWhen(total, Sum(freq16), LostIn(freq, total, n), RareIn(freq, total, n));
  }

  lemma {:induction false} NoneRare(freq: seq<nat>, total: nat, n: nat)
    requires n <= |freq| && forall i :: 0 <= i < n ==> !Rare(freq[i], total)
    ensures RareIn(freq, total, n) == 0
  {
    if n > 0 { NoneRare(freq, total, n - 1); }
  }

  // Without rare symbols it fits, and there are none if the total fits 16 bits itself.
  lemma NoRareFits(freq: seq<nat>, freq16: seq<nat>)
    requires Shares(freq, freq16) && Sum(freq) > 0
    requires Sum(freq) <= MAX16 || forall i :: 0 <= i < |freq| ==> !Rare(freq[i], Sum(freq))
    ensures Sum(freq16) <= MAX16
  {
    hide Sum, Scaled;
    NoneRare(freq, Sum(freq), |freq|);
    SumFitsWhen(freq, freq16);
  }

  lemma {:induction false} SumFront(s: seq<nat>, a: seq<nat>)
    requires |a| <= |s| && s[..|a|] == a && forall i :: |a| <= i < |s| ==> s[i] == 0
    ensures Sum(s) == Sum(a)
    decreases |a|
  {
    if |a| == 0 {
      AllZero(s);
    } else {
      assert s[0] == a[0] && s[1..][..|a| - 1] == a[1..];
      SumFront(s[1..], a[1..]);
    }
  }

  method AdjustFrequencies(freq: array<nat>, freq16: array<nat>)
    requires freq != freq16 && freq.Length == freq16.Length <= MAX16
    modifies freq, freq16
    ensures Scales(old(freq[..]), freq16[..]) && Shares(old(freq[..]), freq16[..])
  {
    hide Sum, Scaled, Scales;
    ghost var was := freq[..];
    var totalFreq := Total(freq);
    if totalFreq == 0 {
      forall i | 0 <= i < freq16.Length { freq16[i] := 0; }
      NothingUsed(was, freq16[..]);
      NothingShared(was, freq16[..]);
      return;
    }
    var i := 0;
    while i < freq.Length
      invariant 0 <= i <= freq.Length && freq[..] == was
      invariant forall j :: 0 <= j < i ==> freq16[j] == Scaled(was[j], totalFreq)
    {
      freq16[i] := Scaled(freq[i], totalFreq);
      i := i + 1;
    }
    ghost var scaled := freq16[..];
    Scaling(was, scaled, totalFreq);
    var totalFreq16 := Total(freq16);
    ghost var first := true;
    while totalFreq16 > MAX16
      invariant freq16[..] == scaled
      invariant !first ==> totalFreq16 == Sum(freq[..])
      decreases first, Sum(freq[..])
    {
      totalFreq16 := Halve(freq);
      first := false;
    }
  }

  lemma FourSums()
    ensures Sum([200000, 1, 1, 1]) == 200003 && Sum([65534, 1, 1, 1]) == MAX16 + 2
    ensures Scaled(200000, 200003) == 65534 && Scaled(1, 200003) == 1 && Scaled(0, 200003) == 0
  {
    assert [200000, 1, 1, 1][1..] == [65534, 1, 1, 1][1..] == [1, 1, 1] && [1, 1, 1][1..] == [1, 1]
      && [1, 1][1..] == [1];
    DivModParts(200000 * MAX16, 200003);
  }

  // The counts of 288 symbols three of which are rare beside a frequent one come out with a sum that does not fit.
  method SumTooLarge() returns (freq16: array<nat>)
    ensures freq16.Length == 288 && Sum(freq16[..]) == MAX16 + 2
  {
    var freq := new nat[288](i => if i == 0 then 200000 else if i < 4 then 1 else 0);
    freq16 := new nat[288];
    ghost var was := freq[..];
    hide Sum, Scaled, Scales;
    FourSums();
    assert was[..4] == [200000, 1, 1, 1];
    SumFront(was, [200000, 1, 1, 1]);
    AdjustFrequencies(freq, freq16);
    assert freq16[..][..4] == [65534, 1, 1, 1];
    SumFront(freq16[..], [65534, 1, 1, 1]);
  }
}
