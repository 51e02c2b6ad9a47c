// CRC-32 (PNG Specification, section 5.5): the definition bit by bit, and the loop that takes four bytes at a
// time from four tables. Words are written as their bits, lowest first.
module Crc32 {
  import opened Sequences
  import opened Bits
  import PrefixCodes

  const WORD := 32
  const POLYNOMIAL := 0xEDB88320

  ghost predicate Word(w: seq<bool>) { |w| == WORD }

  function Xor(x: seq<bool>, y: seq<bool>): (r: seq<bool>)
    requires |x| == |y|
    ensures |r| == |x|
  {
    seq(|x|, i requires 0 <= i < |x| => x[i] != y[i])
  }

  function Not(x: seq<bool>): (r: seq<bool>)
    ensures |r| == |x|
  {
    seq(|x|, i requires 0 <= i < |x| => !x[i])
  }

  // Shifting to the right by n.
  function Shift(x: seq<bool>, n: nat): (r: seq<bool>)
    requires n <= |x|
    ensures |r| == |x|
  {
    x[n..] + Zeros(n)
  }

  // A byte as the low end of a word.
  function Low(b: nat): (r: seq<bool>)
    ensures |r| == WORD
  {
    ToBits(b, 8) + Zeros(WORD - 8)
  }

  function LowByte(x: seq<bool>): (r: seq<bool>)
    requires |x| == WORD
    ensures |r| == WORD
  {
    x[..8] + Zeros(WORD - 8)
  }

  function Poly(): (r: seq<bool>)
    ensures |r| == WORD
  {
    ToBits(POLYNOMIAL, WORD)
  }

  // The powers of x in the polynomial below x^32; the lowest bit of a word stands for x^31.
  const POWERS: seq<nat> := [26, 23, 22, 16, 12, 11, 10, 8, 7, 5, 4, 2, 1, 0]

  lemma FirstBit(v: nat, n: nat, q: nat, b: bool)
    requires v == Digit(b) + 2 * q
    ensures ToBits(v, n + 1) == [b] + ToBits(q, n)
  {
  }

  // Four bits of a word from bit i on, given the number that its bits from there on make.
  lemma Nibble(p: seq<bool>, i: nat, v: nat, q: nat, a: bool, b: bool, c: bool, d: bool)
    requires |p| == 32 && i <= 28 && p[i..] == ToBits(v, 32 - i)
    requires v == Digit(a) + 2 * Digit(b) + 4 * Digit(c) + 8 * Digit(d) + 16 * q
    ensures p[i] == a && p[i + 1] == b && p[i + 2] == c && p[i + 3] == d && p[i + 4..] == ToBits(q, 28 - i)
  {
    hide ToBits;
    var n := 28 - i;
    FirstBit(v, n + 3, Digit(b) + 2 * Digit(c) + 4 * Digit(d) + 8 * q, a);
    FirstBit(Digit(b) + 2 * Digit(c) + 4 * Digit(d) + 8 * q, n + 2, Digit(c) + 2 * Digit(d) + 4 * q, b);
    FirstBit(Digit(c) + 2 * Digit(d) + 4 * q, n + 1, Digit(d) + 2 * q, c);
    FirstBit(Digit(d) + 2 * q, n, q, d);
    var s := p[i..];
    assert s == [a] + ([b] + ([c] + ([d] + ToBits(q, n))));
    assert s == [a, b, c, d] + ToBits(q, n);
    assert p[i] == s[0] && p[i + 1] == s[1] && p[i + 2] == s[2] && p[i + 3] == s[3] && p[i + 4..] == s[4..];
  }

  // The polynomial of the PNG Specification.
  lemma PolynomialIs(k: nat)
    requires k < 32
    ensures Poly()[31 - k] <==> k in POWERS
  {
    hide ToBits;
    var p := Poly();
    assert p[0..] == p;
    Nibble(p, 0, 0xEDB88320, 0xEDB8832, false, false, false, false);
    Nibble(p, 4, 0xEDB8832, 0xEDB883, false, true, false, false);
    Nibble(p, 8, 0xEDB883, 0xEDB88, true, true, false, false);
    Nibble(p, 12, 0xEDB88, 0xEDB8, false, false, false, true);
    Nibble(p, 16, 0xEDB8, 0xEDB, false, false, false, true);
    Nibble(p, 20, 0xEDB, 0xED, true, true, false, true);
    Nibble(p, 24, 0xED, 0xE, true, false, true, true);
    Nibble(p, 28, 0xE, 0x0, false, true, true, true);
  }

  // One bit: the register is shifted, and the polynomial is subtracted if a one leaves it.
  function BitStep(r: seq<bool>): (s: seq<bool>)
    requires |r| == WORD
    ensures |s| == WORD
  {
    if r[0] then Xor(Shift(r, 1), Poly()) else Shift(r, 1)
  }

  function BitSteps(r: seq<bool>, n: nat): (s: seq<bool>)
    requires |r| == WORD
    ensures |s| == WORD
    decreases n
  {
    if n == 0 then r else BitSteps(BitStep(r), n - 1)
  }

  // One byte, lowest bit first.
  function ByteStep(r: seq<bool>, b: nat): (s: seq<bool>)
    requires |r| == WORD
    ensures |s| == WORD
  {
    BitSteps(Xor(r, Low(b)), 8)
  }

  function Register(data: seq<nat>, r: seq<bool>): (s: seq<bool>)
    requires |r| == WORD
    ensures |s| == WORD
  {
    if data == [] then r else ByteStep(Register(data[..|data| - 1], r), data[|data| - 1])
  }

  function Checksum(data: seq<nat>, prev: seq<bool>): (s: seq<bool>)
    requires |prev| == WORD
    ensures |s| == WORD
  {
    Not(Register(data, Not(prev)))
  }

  // Checksumming a concatenation is chaining the checksums of its parts.
  lemma {:induction false} RegisterConcat(a: seq<nat>, b: seq<nat>, r: seq<bool>)
    requires |r| == WORD
    ensures Register(a + b, r) == Register(b, Register(a, r))
  {
    hide ByteStep;
    if b == [] {
      assert a + b == a;
    } else {
      RegisterConcat(a, b[..|b| - 1], r);
      assert (a + b)[..|a + b| - 1] == a + b[..|b| - 1];
    }
  }

  lemma Chained(a: seq<nat>, b: seq<nat>, prev: seq<bool>)
    requires |prev| == WORD
    ensures Checksum(a + b, prev) == Checksum(b, Checksum(a, prev))
  {
    RegisterConcat(a, b, Not(prev));
    NotNot(Register(a, Not(prev)));
  }

  lemma NotNot(x: seq<bool>)
    ensures Not(Not(x)) == x
  {
  }

  // --- linearity -----------------------------------------------------------------------------------------------

  lemma BitStepXor(x: seq<bool>, y: seq<bool>)
    requires |x| == |y| == WORD
    ensures BitStep(Xor(x, y)) == Xor(BitStep(x), BitStep(y))
  {
  }

  lemma {:induction false} BitStepsXor(x: seq<bool>, y: seq<bool>, n: nat)
    requires |x| == |y| == WORD
    ensures BitSteps(Xor(x, y), n) == Xor(BitSteps(x, n), BitSteps(y, n))
    decreases n
  {
    if n > 0 {
      BitStepXor(x, y);
      BitStepsXor(BitStep(x), BitStep(y), n - 1);
    }
  }

  lemma {:induction false} BitStepsAdd(x: seq<bool>, m: nat, n: nat)
    requires |x| == WORD
    ensures BitSteps(x, m + n) == BitSteps(BitSteps(x, m), n)
    decreases m
  {
    if m > 0 { BitStepsAdd(BitStep(x), m - 1, n); }
  }

  // Zero bits leave the register without changing the rest.
  lemma {:induction false} ZerosOut(x: seq<bool>, n: nat)
    requires |x| == WORD && n <= WORD && forall i :: 0 <= i < n ==> !x[i]
    ensures BitSteps(x, n) == Shift(x, n)
    decreases n
  {
    if n > 0 {
      ZerosOut(Shift(x, 1), n - 1);
      assert Shift(Shift(x, 1), n - 1) == Shift(x, n);
    } else {
      assert Shift(x, 0) == x;
    }
  }

  // A byte step by table.
  lemma ByTable(x: seq<bool>)
    requires |x| == WORD
    ensures BitSteps(x, 8) == Xor(Shift(x, 8), BitSteps(LowByte(x), 8))
  {
    var hi := Xor(x, LowByte(x));
    HighPart(x, hi);
    hide *;
    BitStepsXor(hi, LowByte(x), 8);
    ZerosOut(hi, 8);
  }

  lemma HighPart(x: seq<bool>, hi: seq<bool>)
    requires |x| == WORD && hi == Xor(x, LowByte(x))
    ensures |hi| == WORD && x == Xor(hi, LowByte(x)) && Shift(hi, 8) == Shift(x, 8)
    ensures forall i :: 0 <= i < 8 ==> !hi[i]
  {
  }

  // --- the tables ------------------------------------------------------------------------------------------------

  type Table = seq<seq<bool>>

  ghost predicate Sized(t: Table) { |t| == 256 && forall i :: 0 <= i < 256 ==> |t[i]| == WORD }

  // Table 0 is a byte step from 0; each further table follows with another zero byte.
  ghost predicate FirstTable(t: Table) { Sized(t) && forall i :: 0 <= i < 256 ==> t[i] == BitSteps(Low(i), 8) }

  ghost predicate Follows(a: Table, b: Table, first: Table) {
    Sized(a) && Sized(b) && Sized(first) && forall i :: 0 <= i < 256 ==> b[i] == Xor(Shift(a[i], 8), first[Index(a[i][..8])])
  }

  ghost predicate Tables(t0: Table, t1: Table, t2: Table, t3: Table) {
    FirstTable(t0) && Follows(t0, t1, t0) && Follows(t1, t2, t0) && Follows(t2, t3, t0)
  }

  // A table index from eight bits.
  function Index(b: seq<bool>): (i: nat)
    requires |b| == 8
    ensures i < 256
  {
    ToBitsValue(b);
    EightBits();
    Value(b)
  }

  lemma EightBits()
    ensures PrefixCodes.Pow2(8) == 256
  {
    assert PrefixCodes.Pow2(4) == 16;
  }

  lemma LowIndex(x: seq<bool>)
    requires |x| == WORD
    ensures Low(Index(x[..8])) == LowByte(x)
  {
    ToBitsValue(x[..8]);
  }

  // What the entries of a table are: n byte steps from the index.
  ghost predicate Steps(t: Table, n: nat) { Sized(t) && forall i :: 0 <= i < 256 ==> t[i] == BitSteps(Low(i), n) }

  lemma NextSteps(a: Table, b: Table, first: Table, n: nat)
    requires FirstTable(first) && Follows(a, b, first) && Steps(a, n)
    ensures Steps(b, n + 8)
  {
    hide BitSteps, Low, Index, Xor, Shift;
    forall i | 0 <= i < 256
      ensures b[i] == BitSteps(Low(i), n + 8)
    {
      var x := a[i];
      ByTable(x);
      LowIndex(x);
      BitStepsAdd(Low(i), n, 8);
    }
  }

  lemma TableSteps(t0: Table, t1: Table, t2: Table, t3: Table)
    requires Tables(t0, t1, t2, t3)
    ensures Steps(t0, 8) && Steps(t1, 16) && Steps(t2, 24) && Steps(t3, 32)
  {
    assert FirstTable(t0) && Follows(t0, t1, t0) && Follows(t1, t2, t0) && Follows(t2, t3, t0) && Steps(t0, 8);
    hide *;
    NextSteps(t0, t1, t0, 8);
    NextSteps(t1, t2, t0, 16);
    NextSteps(t2, t3, t0, 24);
  }

  // --- four bytes at a time ----------------------------------------------------------------------------------------

  // The byte b at bit position 8 * k of a word.
  function AtByte(b: nat, k: nat): (r: seq<bool>)
    requires k < 4
    ensures |r| == WORD
  {
    Zeros(8 * k) + ToBits(b, 8) + Zeros(WORD - 8 * k - 8)
  }

  // Four bytes as a word, the first lowest.
  function Word4(d: seq<nat>): (r: seq<bool>)
    requires |d| == 4
    ensures |r| == WORD
  {
    ToBits(d[0], 8) + ToBits(d[1], 8) + ToBits(d[2], 8) + ToBits(d[3], 8)
  }

  function Byte(x: seq<bool>, k: nat): (r: seq<bool>)
    requires |x| == WORD && k < 4
    ensures |r| == 8
  {
    x[8 * k..8 * k + 8]
  }

  // A byte that arrives later can be put into the register earlier, at a higher position.
  lemma Earlier(x: seq<bool>, b: nat, k: nat)
    requires |x| == WORD && 0 < k < 4
    ensures BitSteps(Xor(x, AtByte(b, k)), 8) == Xor(BitSteps(x, 8), AtByte(b, k - 1))
  {
    AtShift(b, k);
    hide *;
    BitStepsXor(x, AtByte(b, k), 8);
    ZerosOut(AtByte(b, k), 8);
  }

  lemma AtShift(b: nat, k: nat)
    requires 0 < k < 4
    ensures Shift(AtByte(b, k), 8) == AtByte(b, k - 1) && forall i :: 0 <= i < 8 ==> !AtByte(b, k)[i]
  {
  }

  lemma AtZero(b: nat)
    ensures AtByte(b, 0) == Low(b)
  {
  }

  lemma AllFour(x: seq<bool>, d: seq<nat>)
    requires |x| == WORD && |d| == 4
    ensures Xor(x, Word4(d)) == Xor(Xor(Xor(Xor(x, AtByte(d[0], 0)), AtByte(d[1], 1)), AtByte(d[2], 2)),
      AtByte(d[3], 3))
  {
  }

  // Four byte steps are 32 bit steps on the register with all four bytes put in at once.
  lemma FourBytes(x: seq<bool>, d: seq<nat>)
    requires |x| == WORD && |d| == 4
    ensures Register(d, x) == BitSteps(Xor(x, Word4(d)), 32)
  {
    AllFour(x, d);
    var a0 := Xor(x, AtByte(d[0], 0));
    var a1 := Xor(a0, AtByte(d[1], 1));
    var a2 := Xor(a1, AtByte(d[2], 2));
    var a3 := Xor(a2, AtByte(d[3], 3));
    FourSteps(x, d);
    hide *;
    BitStepsAdd(a3, 8, 24);
    Earlier(a2, d[3], 3);
    Earlier(a1, d[2], 2);
    Earlier(a0, d[1], 1);
    var b := BitSteps(a0, 8);
    var b1 := Xor(b, AtByte(d[1], 0));
    var b2 := Xor(b1, AtByte(d[2], 1));
    var b3 := Xor(b2, AtByte(d[3], 2));
    assert BitSteps(a3, 8) == b3;
    BitStepsAdd(b3, 8, 16);
    Earlier(b2, d[3], 2);
    Earlier(b1, d[2], 1);
    var c := BitSteps(b1, 8);
    var c2 := Xor(c, AtByte(d[2], 0));
    var c3 := Xor(c2, AtByte(d[3], 1));
    assert BitSteps(b3, 8) == c3;
    BitStepsAdd(c3, 8, 8);
    Earlier(c2, d[3], 1);
  }

  lemma FourSteps(x: seq<bool>, d: seq<nat>)
    requires |x| == WORD && |d| == 4
    ensures Register(d, x) == BitSteps(Xor(BitSteps(Xor(BitSteps(Xor(BitSteps(Xor(x, AtByte(d[0], 0)), 8),
      AtByte(d[1], 0)), 8),
      AtByte(d[2], 0)), 8), AtByte(d[3], 0)), 8)
  {
    AtZero(d[0]);
    AtZero(d[1]);
    AtZero(d[2]);
    AtZero(d[3]);
    assert d[..3][..2] == d[..2] && d[..2][..1] == d[..1] && d[..1][..0] == [];
    hide BitSteps, AtByte, Xor;
    assert Register(d[..1], x) == ByteStep(Register(d[..1][..0], x), d[0]);
    assert Register(d[..2], x) == ByteStep(Register(d[..1], x), d[1]);
    assert Register(d[..3], x) == ByteStep(Register(d[..2], x), d[2]);
  }

  // --- four table lookups --------------------------------------------------------------------------------------------

  lemma ByteMoved(b: nat, k: nat)
    requires k < 4
    ensures Shift(AtByte(b, k), 8 * k) == Low(b) && forall i :: 0 <= i < 8 * k ==> !AtByte(b, k)[i]
  {
    hide ToBits;
    assert AtByte(b, k)[8 * k..] == ToBits(b, 8) + Zeros(WORD - 8 * k - 8);
    assert Zeros(WORD - 8 * k - 8) + Zeros(8 * k) == Zeros(WORD - 8);
  }

  lemma ByteOut(b: nat, k: nat)
    requires k < 4
    ensures BitSteps(AtByte(b, k), 32) == BitSteps(Low(b), 32 - 8 * k)
  {
    hide AtByte, Shift, BitSteps, Low;
    ByteMoved(b, k);
    BitStepsAdd(AtByte(b, k), 8 * k, 32 - 8 * k);
    ZerosOut(AtByte(b, k), 8 * k);
  }

  lemma IndexBits(b: seq<bool>)
    requires |b| == 8
    ensures ToBits(Index(b), 8) == b
  {
    ToBitsValue(b);
  }

  lemma FourParts(v: seq<bool>)
    requires |v| == WORD
    ensures v == Xor(Xor(Xor(AtByte(Index(Byte(v, 3)), 3), AtByte(Index(Byte(v, 2)), 2)), AtByte(Index(Byte(v, 1)), 1)),
      AtByte(Index(Byte(v, 0)), 0))
  {
    IndexBits(Byte(v, 0));
    IndexBits(Byte(v, 1));
    IndexBits(Byte(v, 2));
    IndexBits(Byte(v, 3));
    hide Index;
  }

  // The next register from four tables.
  function Lookup4(v: seq<bool>, t0: Table, t1: Table, t2: Table, t3: Table): (r: seq<bool>)
    requires |v| == WORD && Sized(t0) && Sized(t1) && Sized(t2) && Sized(t3)
    ensures |r| == WORD
  {
    Xor(Xor(Xor(t0[Index(Byte(v, 3))], t1[Index(Byte(v, 2))]), t2[Index(Byte(v, 1))]), t3[Index(Byte(v, 0))])
  }

  lemma EntryAt(t: Table, n: nat, i: nat)
    requires Steps(t, n) && i < 256
    ensures Sized(t) && |t| == 256 && t[i] == BitSteps(Low(i), n)
  {
  }

  lemma LookupIs(v: seq<bool>, t0: Table, t1: Table, t2: Table, t3: Table)
    requires |v| == WORD && Steps(t0, 8) && Steps(t1, 16) && Steps(t2, 24) && Steps(t3, 32)
    ensures Sized(t0) && Sized(t1) && Sized(t2) && Sized(t3) && Lookup4(v, t0, t1, t2, t3) == BitSteps(v, 32)
  {
    hide BitSteps, Steps, Sized, Index, Byte, Xor, Low, AtByte;
    var i3, i2, i1, i0 := Index(Byte(v, 3)), Index(Byte(v, 2)), Index(Byte(v, 1)), Index(Byte(v, 0));
    EntryAt(t0, 8, i3);
    EntryAt(t1, 16, i2);
    EntryAt(t2, 24, i1);
    EntryAt(t3, 32, i0);
    FourParts(v);
    Combine(v, i3, i2, i1, i0);
  }

  lemma Combine(v: seq<bool>, i3: nat, i2: nat, i1: nat, i0: nat)
    requires |v| == WORD && v == Xor(Xor(Xor(AtByte(i3, 3), AtByte(i2, 2)), AtByte(i1, 1)), AtByte(i0, 0))
    ensures BitSteps(v, 32) == Xor(Xor(Xor(BitSteps(Low(i3), 8), BitSteps(Low(i2), 16)), BitSteps(Low(i1), 24)),
      BitSteps(Low(i0), 32))
  {
    hide *;
    ByteOut(i3, 3);
    ByteOut(i2, 2);
    ByteOut(i1, 1);
    ByteOut(i0, 0);
    BitStepsXor(AtByte(i3, 3), AtByte(i2, 2), 32);
    BitStepsXor(Xor(AtByte(i3, 3), AtByte(i2, 2)), AtByte(i1, 1), 32);
    BitStepsXor(Xor(Xor(AtByte(i3, 3), AtByte(i2, 2)), AtByte(i1, 1)), AtByte(i0, 0), 32);
  }

  // One byte by table 0.
  function Tail(r: seq<bool>, b: nat, t0: Table): (s: seq<bool>)
    requires |r| == WORD && Sized(t0)
    ensures |s| == WORD
  {
    Xor(Shift(r, 8), t0[Index(Xor(r[..8], ToBits(b, 8)))])
  }

  lemma TailStep(r: seq<bool>, b: nat, t0: Table)
    requires |r| == WORD && FirstTable(t0)
    ensures Tail(r, b, t0) == ByteStep(r, b)
  {
    var x := Xor(r, Low(b));
    assert Shift(x, 8) == Shift(r, 8) && x[..8] == Xor(r[..8], ToBits(b, 8));
    ByTable(x);
    LowIndex(x);
  }

  lemma XorSwap(x: seq<bool>, y: seq<bool>)
    requires |x| == |y|
    ensures Xor(x, y) == Xor(y, x)
  {
  }

  lemma PrefixFour(data: seq<nat>, i: nat)
    requires i + 4 <= |data|
    ensures data[..i] + data[i..i + 4] == data[..i + 4]
  {
  }

  lemma PrefixOne(data: seq<nat>, i: nat)
    requires i < |data|
    ensures data[..i] + [data[i]] == data[..i + 1]
  {
  }

  // The register after the bytes done.
  ghost predicate Running(crc: seq<bool>, done: seq<nat>, start: seq<bool>) {
    |start| == |crc| == WORD && crc == Register(done, start)
  }

  // The next four bytes, by four lookups.
  function Fours(data: seq<nat>, pos: nat, crc: seq<bool>, t0: Table, t1: Table, t2: Table, t3: Table): (r: seq<bool>)
    requires pos + 4 <= |data| && |crc| == WORD && Sized(t0) && Sized(t1) && Sized(t2) && Sized(t3)
    ensures |r| == WORD
  {
    Lookup4(Xor(Word4(data[pos..pos + 4]), crc), t0, t1, t2, t3)
  }

  lemma FourMore(data: seq<nat>, pos: nat, start: seq<bool>, crc: seq<bool>, t0: Table, t1: Table, t2: Table, t3: Table)
    requires pos + 4 <= |data| && |crc| == WORD && Running(crc, data[..pos], start) && Tables(t0, t1, t2, t3)
    ensures Sized(t0) && Sized(t1) && Sized(t2) && Sized(t3)
    ensures Running(Fours(data, pos, crc, t0, t1, t2, t3), data[..pos + 4], start)
  {
    PrefixFour(data, pos);
    hide Register, Lookup4, Word4, Xor, Tables, Sized;
    FourMoreSteps(data[..pos], data[pos..pos + 4], start, crc, t0, t1, t2, t3);
  }

  lemma FourMoreSteps(done: seq<nat>, d: seq<nat>, start: seq<bool>, crc: seq<bool>, t0: Table, t1: Table, t2: Table,
      t3: Table)
    requires |d| == 4 && |start| == |crc| == WORD && crc == Register(done, start) && Tables(t0, t1, t2, t3)
    ensures Sized(t0) && Sized(t1) && Sized(t2) && Sized(t3)
    ensures Lookup4(Xor(Word4(d), crc), t0, t1, t2, t3) == Register(done + d, start)
  {
    hide *;
    TableSteps(t0, t1, t2, t3);
    RegisterConcat(done, d, start);
    FourBytes(crc, d);
    XorSwap(Word4(d), crc);
    LookupIs(Xor(Word4(d), crc), t0, t1, t2, t3);
  }

  lemma OneMore(done: seq<nat>, b: nat, start: seq<bool>, crc: seq<bool>, t0: Table)
    requires |crc| == WORD && Running(crc, done, start) && FirstTable(t0)
    ensures Sized(t0) && Running(Tail(crc, b, t0), done + [b], start)
  {
    assert (done + [b])[..|done|] == done;
    hide Tail, ByteStep;
    TailStep(crc, b, t0);
  }

  lemma TablesSized(t0: Table, t1: Table, t2: Table, t3: Table)
    requires Tables(t0, t1, t2, t3)
    ensures FirstTable(t0) && Sized(t0) && Sized(t1) && Sized(t2) && Sized(t3)
  {
    hide Sized;
  }

  lemma Begin(data: seq<nat>, start: seq<bool>)
    requires |start| == WORD
    ensures Running(start, data[..0], start)
  {
  }

  lemma Finish(crc: seq<bool>, data: seq<nat>, prev: seq<bool>)
    requires |prev| == WORD && Running(crc, data[..|data|], Not(prev))
    ensures Not(crc) == Checksum(data, prev)
  {
    assert data[..|data|] == data;
    hide Register, Not;
  }

  // All groups of four bytes.
  method TakeFours(data: seq<nat>, start: seq<bool>, t0: Table, t1: Table, t2: Table,
      t3: Table) returns (crc: seq<bool>, pos: int)
    requires |start| == WORD && Tables(t0, t1, t2, t3)
    ensures 0 <= pos <= |data| < pos + 4 && |crc| == WORD && Running(crc, data[..pos], start)
  {
    crc, pos := start, 0;
    Begin(data, start);
    TablesSized(t0, t1, t2, t3);
    hide *;
    while |data| - pos >= 4
      invariant 0 <= pos <= |data| && |crc| == WORD && Running(crc, data[..pos], start)
    {
      FourMore(data, pos, start, crc, t0, t1, t2, t3);
      crc := Fours(data, pos, crc, t0, t1, t2, t3);
      pos := pos + 4;
    }
  }

  // With tables that follow the recurrence, the checksum of any input is that of the definition.
  method CrcSliceBy4(data: seq<nat>, prev: seq<bool>, t0: Table, t1: Table, t2: Table,
      t3: Table) returns (crc: seq<bool>)
    requires |prev| == WORD && Tables(t0, t1, t2, t3)
    ensures crc == Checksum(data, prev)
  {
    hide *;
    var pos;
    TablesSized(t0, t1, t2, t3);
    crc, pos := TakeFours(data, Not(prev), t0, t1, t2, t3);
    while pos < |data|
      invariant 0 <= pos <= |data| && |crc| == WORD && Running(crc, data[..pos], Not(prev))
    {
      PrefixOne(data, pos);
      OneMore(data[..pos], data[pos], Not(prev), crc, t0);
      crc := Tail(crc, data[pos], t0);
      pos := pos + 1;
    }
    Finish(crc, data, prev);
    crc := Not(crc);
  }
}
