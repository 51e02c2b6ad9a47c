// The Adler-32 checksum: the definition (RFC 1950, section 2.2), the scalar loop that takes remainders only
// every 5552 bytes, and the loop over 16 lanes.
module Adler32 {
  import opened Sequences
  import opened PrefixCodes

  const K := 65521
  const BLOCK := 5552
  const WORD := 0x1_0000_0000

  datatype Sums = Sums(s1: nat, s2: nat)

  // The definition, one byte at a time.
  function Run(data: seq<nat>, s: Sums): Sums {
    if data == [] then s
    else
      var t, b := Run(data[..|data| - 1], s), data[|data| - 1];
      Sums((t.s1 + b) % K, (t.s2 + (t.s1 + b) % K) % K)
  }

  function Unpack(adler: nat): (s: Sums)
    ensures s.s1 <= 65535 && (adler < WORD ==> s.s2 <= 65535)
  {
    Sums(adler % 65536, adler / 65536)
  }

  function Pack(s: Sums): nat { s.s2 * 65536 + s.s1 }

  function Checksum(data: seq<nat>, adler: nat): nat { Pack(Run(data, Unpack(adler))) }

  // The same sums without remainders.
  function Plain(data: seq<nat>, s: Sums): Sums {
    if data == [] then s
    else
      var t, b := Plain(data[..|data| - 1], s), data[|data| - 1];
      Sums(t.s1 + b, t.s2 + t.s1 + b)
  }

  function Reduced(s: Sums): (r: Sums)
    ensures r.s1 < K && r.s2 < K
  {
    Sums(s.s1 % K, s.s2 % K)
  }

  lemma PlainStep(data: seq<nat>, b: nat, s: Sums)
    ensures Plain(data + [b], s) == Sums(Plain(data, s).s1 + b, Plain(data, s).s2 + Plain(data, s).s1 + b)
  {
    assert (data + [b])[..|data|] == data;
  }

  lemma {:induction false} PlainConcat(a: seq<nat>, b: seq<nat>, s: Sums)
    ensures Plain(a + b, s) == Plain(b, Plain(a, s))
  {
    if b == [] {
      assert a + b == a;
    } else {
      PlainConcat(a, b[..|b| - 1], s);
      assert (a + b)[..|a + b| - 1] == a + b[..|b| - 1];
    }
  }

  lemma ReducedTwice(s: Sums)
    ensures Reduced(Reduced(s)) == Reduced(s)
  {
  }

  lemma {:induction false} RunPlain(data: seq<nat>, s: Sums)
    ensures Reduced(Run(data, s)) == Reduced(Plain(data, s))
    ensures data != [] ==> Run(data, s) == Reduced(Plain(data, s))
  {
    hide Reduced;
    if data != [] {
      var n := |data| - 1;
      RunPlain(data[..n], s);
      StepReduced(Run(data[..n], s), Plain(data[..n], s), data[n]);
      ReducedTwice(Plain(data, s));
    }
  }

  // One step of the definition, on sums that agree modulo K.
  lemma StepReduced(s: Sums, t: Sums, b: nat)
    requires Reduced(s) == Reduced(t)
    ensures Sums((s.s1 + b) % K, (s.s2 + (s.s1 + b) % K) % K) == Reduced(Sums(t.s1 + b, t.s2 + t.s1 + b))
    ensures Reduced(Sums(s.s1 + b, s.s2 + s.s1 + b)) == Reduced(Sums(t.s1 + b, t.s2 + t.s1 + b))
    ensures Reduced(Reduced(t)) == Reduced(t)
  {
    ModAdd(s.s1, b, K);
    ModAdd(t.s1, b, K);
    ModAdd(s.s1 + b, s.s2, K);
    ModAdd(t.s1 + b, t.s2, K);
    ModAdd(s.s2, (s.s1 + b) % K, K);
    ModAdd(t.s2, (s.s1 + b) % K, K);
  }

  // Taking remainders in between does not matter.
  lemma {:induction false} ReduceBefore(data: seq<nat>, s: Sums)
    ensures Reduced(Plain(data, Reduced(s))) == Reduced(Plain(data, s))
  {
    hide Reduced;
    if data == [] {
      StepReduced(s, s, 0);
    } else {
      var n := |data| - 1;
      ReduceBefore(data[..n], s);
      StepReduced(Plain(data[..n], Reduced(s)), Plain(data[..n], s), data[n]);
    }
  }

  // --- no overflow -------------------------------------------------------------------------------------------------

  // 1 + 2 + ... + n.
  function Triangle(n: nat): nat { if n == 0 then 0 else Triangle(n - 1) + n }

  lemma {:induction false} TriangleBound(n: nat)
    requires n <= BLOCK
    ensures Triangle(n) <= 15415128
  {
    TriangleClosed(n);
    TriangleClosed(BLOCK);
    TriangleMonotone(n, BLOCK);
  }

  lemma {:induction false} TriangleClosed(n: nat)
    ensures 2 * Triangle(n) == n * (n + 1)
  {
    if n > 0 {
      TriangleClosed(n - 1);
      AddMultiples(n - 1, 2, n);
    }
  }

  lemma {:induction false} TriangleMonotone(n: nat, m: nat)
    requires n <= m
    ensures Triangle(n) <= Triangle(m)
  {
    if n < m { TriangleMonotone(n, m - 1); }
  }

  lemma {:induction false} PlainBound(data: seq<nat>, s: Sums)
    requires Bytes(data) && s.s1 <= 65535
    ensures s.s1 <= Plain(data, s).s1 <= 65535 + 255 * |data|
    ensures Plain(data, s).s2 <= s.s2 + 65535 * |data| + 255 * Triangle(|data|)
  {
    if data != [] { PlainBound(data[..|data| - 1], s); }
  }

  // Within a block of 5552 bytes, no sum overflows 32 bits, even from the largest starting values.
  lemma NoOverflow(data: seq<nat>, s: Sums)
    requires Bytes(data) && |data| <= BLOCK && s.s1 <= 65535 && s.s2 <= 65535
    ensures Plain(data, s).s1 < WORD && Plain(data, s).s2 < WORD
  {
    PlainBound(data, s);
    TriangleBound(|data|);
  }

  // --- the scalar loop ---------------------------------------------------------------------------------------------

  function Add32(x: nat, y: nat): nat { (x + y) % WORD }

  lemma NextByte(data: seq<nat>, i: nat, s: Sums, t: Sums)
    requires Bytes(data) && i < |data| <= BLOCK && s.s1 <= 65535 && s.s2 <= 65535 && t == Plain(data[..i], s)
    ensures Add32(t.s1, data[i]) == t.s1 + data[i] && Add32(t.s2, t.s1 + data[i]) == t.s2 + t.s1 + data[i]
    ensures Plain(data[..i + 1], s) == Sums(t.s1 + data[i], t.s2 + t.s1 + data[i])
  {
    assert data[..i + 1] == data[..i] + [data[i]];
    PlainStep(data[..i], data[i], s);
    NoOverflow(data[..i + 1], s);
  }

  // Adds the bytes of one block.
  method AddBlock(data: seq<nat>, start: Sums) returns (s: Sums)
    requires Bytes(data) && |data| <= BLOCK && start.s1 <= 65535 && start.s2 <= 65535
    ensures s == Plain(data, start)
  {
    assert data[..0] == [] && Plain([], start) == start && data[..|data|] == data;
    hide *;
    s := start;
    var i := 0;
    while i + 7 < |data|
      invariant 0 <= i <= |data| && s == Plain(data[..i], start)
    {
      var end := i + 8;
      while i < end
        invariant 0 <= i <= end <= |data| && s == Plain(data[..i], start)
      {
        NextByte(data, i, start, s);
        var s1 := Add32(s.s1, data[i]);
        s := Sums(s1, Add32(s.s2, s1));
        i := i + 1;
      }
    }
    while i < |data|
      invariant 0 <= i <= |data| && s == Plain(data[..i], start)
    {
      NextByte(data, i, start, s);
      var s1 := Add32(s.s1, data[i]);
      s := Sums(s1, Add32(s.s2, s1));
      i := i + 1;
    }
  }

  // One more block of a longer input.
  lemma NextBlock(data: seq<nat>, pos: nat, len: nat, s: Sums, start: Sums, t: Sums)
    requires pos + len <= |data| && Reduced(s) == Reduced(Plain(data[..pos], start))
      && t == Plain(data[pos..pos + len], s)
    ensures Reduced(t) == Reduced(Reduced(t)) == Reduced(Plain(data[..pos + len], start))
  {
    StepReduced(t, t, 0);
    var a, b := data[..pos], data[pos..pos + len];
    assert data[..pos + len] == a + b;
    PlainConcat(a, b, start);
    ReduceBefore(b, s);
    ReduceBefore(b, Plain(a, start));
  }

  lemma RunIs(data: seq<nat>, start: Sums, s: Sums)
    requires Reduced(s) == Reduced(Plain(data, start)) && if data == [] then s == start else s == Reduced(s)
    ensures s == Run(data, start)
  {
    RunPlain(data, start);
  }

  lemma SubBytes(data: seq<nat>, i: nat, j: nat)
    requires Bytes(data) && i <= j <= |data|
    ensures Bytes(data[i..j])
  {
  }

  method AdlerScalar(data: seq<nat>, adler: nat) returns (r: nat)
    requires Bytes(data) && adler < WORD
    ensures r == Checksum(data, adler)
  {
    var s := Unpack(adler);
    ghost var start := s;
    var pos, blockLen := 0, |data| % BLOCK;
    ghost var blocks: int := |data| / BLOCK;
    assert data[..0] == [] && Plain([], s) == s;
    hide Plain, Run, Bytes, Reduced, Unpack;
    while pos < |data|
      invariant 0 <= pos <= |data| && s.s1 <= 65535 && s.s2 <= 65535 && 0 <= blockLen <= BLOCK
      invariant |data| - pos == blockLen + blocks * 5552 && blocks >= -1
      invariant Reduced(s) == Reduced(Plain(data[..pos], start))
      invariant if data == [] then s == start else pos > 0 ==> s == Reduced(s)
      invariant blockLen == 0 ==> pos == 0
      decreases |data| - pos, if blockLen == 0 then 1 else 0
    {
      SubBytes(data, pos, pos + blockLen);
      var t := AddBlock(data[pos..pos + blockLen], s);
      NextBlock(data, pos, blockLen, s, start, t);
      s := Reduced(t);
      pos := pos + blockLen;
      blockLen := BLOCK;
      blocks := blocks - 1;
    }
    assert data[..pos] == data;
    RunIs(data, start, s);
    r := s.s2 * 65536 + s.s1;
  }
}
