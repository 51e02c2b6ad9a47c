// Adler-32 over 16 lanes: lane l sums the bytes at positions l, 16 + l, 32 + l and so on.
module AdlerLanes {
  import opened Sequences
  import opened PrefixCodes
  import opened Adler32

  const LANES := 16

  function Total(v: seq<nat>): nat { if v == [] then 0 else Total(v[..|v| - 1]) + v[|v| - 1] }

  // The sum of i * v[i].
  function Weighted(v: seq<nat>): nat { if v == [] then 0 else Weighted(v[..|v| - 1]) + (|v| - 1) * v[|v| - 1] }

  // Lane-wise addition modulo 2^32.
  function AddLanes(v: seq<nat>, w: seq<nat>): (r: seq<nat>)
    requires |v| == |w|
    ensures |r| == |v|
  {
    seq(|v|, i requires 0 <= i < |v| => Add32(v[i], w[i]))
  }

  function LaneSums(v: seq<nat>, w: seq<nat>): (r: seq<nat>)
    requires |v| == |w|
    ensures |r| == |v|
  {
    seq(|v|, i requires 0 <= i < |v| => v[i] + w[i])
  }

  lemma {:induction false} SumOfSums(v: seq<nat>, w: seq<nat>)
    requires |v| == |w|
    ensures Total(LaneSums(v, w)) == Total(v) + Total(w) && Weighted(LaneSums(v, w)) == Weighted(v) + Weighted(w)
  {
    if v != [] {
      var n := |v| - 1;
      SumOfSums(v[..n], w[..n]);
      assert LaneSums(v, w)[..n] == LaneSums(v[..n], w[..n]);
      Distributed(n, v[n], w[n]);
    }
  }

  // The two sums after the bytes of v.
  lemma {:induction false} PlainTotal(v: seq<nat>, s: Sums)
    ensures Plain(v, s).s1 == s.s1 + Total(v) && Plain(v, s).s2 + Weighted(v) == s.s2 + |v| * s.s1 + |v| * Total(v)
  {
    if v != [] {
      var n := |v| - 1;
      PlainTotal(v[..n], s);
      AddMultiples(n, 1, s.s1);
      AddMultiples(n, 1, Total(v));
      Distributed(n, Total(v[..n]), v[n]);
    }
  }

  lemma Distributed(n: nat, x: nat, y: nat)
    ensures n * (x + y) == n * x + n * y
  {
  }

  // What the lanes hold after some rounds: together, the unreduced sums.
  ghost predicate Lanes(a: seq<nat>, b: seq<nat>, s2: nat, t: Sums) {
    |a| == |b| == LANES && Total(a) == t.s1 && LANES * Total(b) + s2 == t.s2 + Weighted(a)
  }

  lemma LanesStep(a: seq<nat>, b: seq<nat>, v: seq<nat>, s2: nat, t: Sums)
    requires Lanes(a, b, s2, t) && |v| == LANES
    ensures Lanes(LaneSums(a, v), LaneSums(b, LaneSums(a, v)), s2, Plain(v, t))
  {
    SumOfSums(a, v);
    SumOfSums(b, LaneSums(a, v));
    PlainTotal(v, t);
  }

  // Bounds for every lane after i rounds.
  ghost predicate LaneBounds(a: seq<nat>, b: seq<nat>, i: nat) {
    && |a| == |b| == LANES
    && forall l :: 0 <= l < LANES ==> a[l] <= 65535 + 255 * i && b[l] <= 65535 * i + 255 * Triangle(i) && (i > 0 ==> a[l] <= b[l])
  }

  lemma BoundsStep(a: seq<nat>, b: seq<nat>, v: seq<nat>, i: nat)
    requires LaneBounds(a, b, i) && |v| == LANES && Bytes(v)
    ensures LaneBounds(LaneSums(a, v), LaneSums(b, LaneSums(a, v)), i + 1)
  {
  }

  lemma BoundsFit(a: seq<nat>, b: seq<nat>, i: nat)
    requires LaneBounds(a, b, i) && i <= BLOCK
    ensures forall l :: 0 <= l < LANES ==> a[l] < WORD && b[l] < WORD
  {
    TriangleBound(i);
  }

  lemma NoWrap(v: seq<nat>, w: seq<nat>)
    requires |v| == |w| && forall l :: 0 <= l < |v| ==> v[l] + w[l] < WORD
    ensures AddLanes(v, w) == LaneSums(v, w)
  {
  }

  // The weighted subtraction does not go below zero.
  lemma {:induction false} WeightedBound(a: seq<nat>, b: seq<nat>)
    requires |a| == |b| <= LANES && forall l :: 0 <= l < |a| ==> a[l] <= b[l]
    ensures Weighted(a) <= LANES * Total(b)
  {
    if a != [] {
      var n := |a| - 1;
      WeightedBound(a[..n], b[..n]);
      MulMono(n, LANES, a[n]);
      MulMono(a[n], b[n], LANES);
    }
  }

  // The sum of i * v[i] that the weighted loop computes, and the plain sum.
  method TotalOf(v: seq<nat>) returns (t: nat)
    ensures t == Total(v)
  {
    t := 0;
    assert v[..|v|] == v;
    for i := 0 to |v|
      invariant t == Total(v[..i])
    {
      assert v[..i + 1][..i] == v[..i];
      t := t + v[i];
    }
  }

  method WeightedOf(v: seq<nat>) returns (t: nat)
    ensures t == Weighted(v)
  {
    t := 0;
    assert v[..|v|] == v;
    for i := 0 to |v|
      invariant t == Weighted(v[..i])
    {
      assert v[..i + 1][..i] == v[..i];
      t := t + v[i] * i;
    }
  }

  function Broadcast(x: nat): (v: seq<nat>)
    ensures |v| == LANES
  {
    seq(LANES, i => if i == 0 then x else 0)
  }

  lemma {:induction false} FirstLane(v: seq<nat>, s1: nat)
    requires v != [] && v[0] == s1 && forall i :: 0 < i < |v| ==> v[i] == 0
    ensures Total(v) == s1 && Weighted(v) == 0
  {
    if |v| > 1 { FirstLane(v[..|v| - 1], s1); }
  }

  lemma {:induction false} AllZero(v: seq<nat>)
    requires forall i :: 0 <= i < |v| ==> v[i] == 0
    ensures Total(v) == 0
  {
    if v != [] { AllZero(v[..|v| - 1]); }
  }

  const TWO64 := 0x1_0000_0000_0000_0000

  lemma {:induction false} LaneTotals(v: seq<nat>)
    requires |v| <= LANES && forall l :: 0 <= l < |v| ==> v[l] < WORD
    ensures Total(v) <= |v| * WORD && Weighted(v) <= |v| * (LANES * WORD)
  {
    if |v| > 0 {
      var n := |v| - 1;
      LaneTotals(v[..n]);
      MulMono(n, LANES, v[n]);
      MulMono(v[n], WORD, LANES);
      AddMultiples(n, 1, WORD);
      AddMultiples(n, 1, LANES * WORD);
    }
  }

  // Puts the lanes together. In 64 bits nothing overflows, and the subtraction does not go below zero.
  method CombineLanes(a: seq<nat>, b: seq<nat>, s2: nat) returns (t: Sums)
    requires |a| == |b| == LANES && s2 <= 65535
    requires forall l :: 0 <= l < LANES ==> a[l] <= b[l] && a[l] < WORD && b[l] < WORD
    ensures t.s1 == Total(a) && t.s2 == LANES * Total(b) - Weighted(a) + s2
    ensures t.s1 < TWO64 && Weighted(a) <= LANES * Total(b) && LANES * Total(b) + s2 < TWO64 && t.s2 < TWO64
  {
    hide Total, Weighted;
    WeightedBound(a, b);
    LaneTotals(a);
    LaneTotals(b);
    var vs1 := TotalOf(a);
    var vs2a := WeightedOf(a);
    var vs2b := TotalOf(b);
    t := Sums(vs1, vs2b * LANES - vs2a + s2);
  }

  lemma LanesOrdered(a: seq<nat>, b: seq<nat>, i: nat)
    requires LaneBounds(a, b, i) && 0 < i <= BLOCK
    ensures |a| == |b| == LANES && forall l :: 0 <= l < LANES ==> a[l] <= b[l] && a[l] < WORD && b[l] < WORD
  {
    BoundsFit(a, b, i);
  }

  lemma Together(a: seq<nat>, b: seq<nat>, s2: nat, t: Sums)
    requires Lanes(a, b, s2, t)
    ensures |a| == |b| == LANES && t == Sums(Total(a), LANES * Total(b) - Weighted(a) + s2)
  {
  }

  lemma LanesStart(s1: nat, s2: nat)
    requires s1 <= 65535
    ensures Lanes(Broadcast(s1), seq(LANES, _ => 0), s2, Sums(s1, s2))
      && LaneBounds(Broadcast(s1), seq(LANES, _ => 0), 0)
  {
    FirstLane(Broadcast(s1), s1);
    AllZero(seq(LANES, _ => 0));
  }

  // n rounds of 16 bytes; then the lanes are put together.
  method AddRounds(data: seq<nat>, n: nat, s1: nat, s2: nat) returns (t: Sums)
    requires Bytes(data) && 0 < n <= BLOCK && |data| == LANES * n && s1 <= 65535 && s2 <= 65535
    ensures t == Plain(data, Sums(s1, s2)) && t.s1 < TWO64 && t.s2 < TWO64
  {
    hide Lanes, LaneBounds, Plain, Total, Weighted, Bytes, Broadcast;
    var a, b := Broadcast(s1), seq(LANES, _ => 0);
    ghost var start := Sums(s1, s2);
    LanesStart(s1, s2);
    NothingAdded(data[..0], start);
    for i := 0 to n
      invariant Lanes(a, b, s2, Plain(data[..LANES * i], start)) && LaneBounds(a, b, i)
    {
      var v := data[LANES * i..LANES * i + LANES];
      assert data[..LANES * (i + 1)] == data[..LANES * i] + v;
      SubBytes(data, LANES * i, LANES * i + LANES);
      Round(a, b, v, s2, Plain(data[..LANES * i], start), i);
      PlainConcat(data[..LANES * i], v, start);
      a := AddLanes(a, v);
      b := AddLanes(b, a);
    }
    assert data[..LANES * n] == data;
    Together(a, b, s2, Plain(data, start));
    LanesOrdered(a, b, n);
    t := CombineLanes(a, b, s2);
  }

  lemma NothingAdded(data: seq<nat>, s: Sums)
    requires |data| == 0
    ensures Plain(data, s) == s
  {
  }

  lemma Round(a: seq<nat>, b: seq<nat>, v: seq<nat>, s2: nat, t: Sums, i: nat)
    requires Lanes(a, b, s2, t) && LaneBounds(a, b, i) && i < BLOCK && |v| == LANES && Bytes(v)
    ensures |a| == |b| == |v| && Lanes(AddLanes(a, v), AddLanes(b, AddLanes(a, v)), s2, Plain(v, t))
    ensures LaneBounds(AddLanes(a, v), AddLanes(b, AddLanes(a, v)), i + 1)
  {
    LanesStep(a, b, v, s2, t);
    BoundsStep(a, b, v, i);
    BoundsFit(LaneSums(a, v), LaneSums(b, LaneSums(a, v)), i + 1);
    hide Lanes, LaneBounds, Total, Weighted, Plain;
    NoWrap(a, v);
    NoWrap(b, LaneSums(a, v));
  }

  lemma RunEmpty(data: seq<nat>, s: Sums)
    requires data == []
    ensures Run(data, s) == s
  {
  }

  // How many rounds are done before the next remainders are taken.
  function Rounds(len: nat): (n: nat)
    requires len >= LANES
    ensures 0 < n <= BLOCK && n * LANES <= len
  {
    if len / 16 < BLOCK then len / 16 else BLOCK
  }

  lemma PackInjective(s: Sums, t: Sums)
    requires s.s1 < 65536 && t.s1 < 65536
    ensures Pack(s) == Pack(t) <==> s == t
  {
  }

  // 65521 is not reduced: the definition leaves it as it is, the lanes make it 0.
  lemma NothingReduced()
    ensures Checksum([], 65521) == 65521 && Pack(Reduced(Run([], Unpack(65521)))) == 0
  {
  }

  // Agrees with the definition, unless the input is empty and the starting value is not reduced.
  method AdlerSixteen(data: seq<nat>, adler: nat) returns (r: nat)
    requires Bytes(data) && adler < WORD
    ensures r == Pack(Reduced(Run(data, Unpack(adler))))
    ensures r == Checksum(data, adler) <==> data != [] || Unpack(adler) == Reduced(Unpack(adler))
  {
    var s := Unpack(adler);
    ghost var start := s;
    var pos := 0;
    assert data[..0] == [] && Plain([], start) == start;
    hide Plain, Run, Bytes, Rounds, Reduced, Unpack;
    while |data| - pos >= LANES
      invariant 0 <= pos <= |data| && s.s1 <= 65535 && s.s2 <= 65535
      invariant Reduced(s) == Reduced(Plain(data[..pos], start))
    {
      var n := Rounds(|data| - pos);
      var len := n * LANES;
      SubBytes(data, pos, pos + len);
      var t := AddRounds(data[pos..pos + len], n, s.s1, s.s2);
      NextBlock(data, pos, len, s, start, t);
      s := Reduced(t);
      pos := pos + len;
    }
    SubBytes(data, pos, |data|);
    assert data[pos..] == data[pos..|data|];
    var t := AddBlock(data[pos..], s);
    NextBlock(data, pos, |data| - pos, s, start, t);
    assert data[..|data|] == data;
    RunPlain(data, start);
    if data == [] {
      RunEmpty(data, start);
      PackInjective(Reduced(start), start);
    }
    r := Pack(Reduced(t));
  }
}
