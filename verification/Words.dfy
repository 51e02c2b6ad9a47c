// Little-endian machine words inside a flat byte buffer.
module Words {

  type Byte = x: int | 0 <= x < 256

  const TWO64 := 0x1_0000_0000_0000_0000

  function Base(n: nat): (b: nat)
    ensures b >= 1
  {
    if n == 0 then 1 else 256 * Base(n - 1)
  }

  // The n low-order bytes of v, least significant first.
  function ToLE(v: nat, n: nat): (s: seq<Byte>)
    ensures |s| == n
  {
    if n == 0 then [] else [v % 256] + ToLE(v / 256, n - 1)
  }

  function FromLE(s: seq<Byte>): nat {
    if s == [] then 0 else s[0] + 256 * FromLE(s[1..])
  }

  lemma {:induction false} FromToLE(v: nat, n: nat)
    requires v < Base(n)
    ensures FromLE(ToLE(v, n)) == v
  {
    if n > 0 {
      FromToLE(v / 256, n - 1);
      assert ToLE(v, n)[1..] == ToLE(v / 256, n - 1);
    }
  }

  lemma {:induction false} ToFromLE(s: seq<Byte>)
    ensures FromLE(s) < Base(|s|)
    ensures ToLE(FromLE(s), |s|) == s
  {
    if s != [] {
      ToFromLE(s[1..]);
      assert FromLE(s) / 256 == FromLE(s[1..]);
    }
  }

  // The 64-bit word at byte address a.
  function Word(m: seq<Byte>, a: nat): nat
    requires a + 8 <= |m|
  {
    FromLE(m[a..a + 8])
  }

  function Put(m: seq<Byte>, a: nat, v: nat): (m': seq<Byte>)
    requires a + 8 <= |m|
    ensures |m'| == |m|
  {
    m[..a] + ToLE(v, 8) + m[a + 8..]
  }

  predicate Apart(a: nat, b: nat) { a + 8 <= b || b + 8 <= a }

  // A word reads back as written, every other disjoint word is untouched.
  lemma PutAt(m: seq<Byte>, a: nat, v: nat, x: nat)
    requires a + 8 <= |m| && v < TWO64 && x + 8 <= |m| && (x == a || Apart(a, x))
    ensures Word(Put(m, a, v), x) == if x == a then v else Word(m, x)
  {
    PutWord(m, a, v);
  }

  // The same for all words at once, and for the bytes outside the written word.
  lemma PutWord(m: seq<Byte>, a: nat, v: nat)
    requires a + 8 <= |m| && v < TWO64
    ensures Word(Put(m, a, v), a) == v
    ensures forall b: nat :: b + 8 <= |m| && Apart(a, b) ==> Word(Put(m, a, v), b) == Word(m, b)
    ensures forall i :: 0 <= i < |m| && !(a <= i < a + 8) ==> Put(m, a, v)[i] == m[i]
  {
    var m' := Put(m, a, v);
    Base8();
    FromToLE(v, 8);
    assert m'[a..a + 8] == ToLE(v, 8);
    forall b: nat | b + 8 <= |m| && Apart(a, b)
      ensures Word(m', b) == Word(m, b)
    {
      assert m'[b..b + 8] == m[b..b + 8];
    }
  }

  lemma Base8()
    ensures Base(8) == TWO64
  {
    assert Base(2) == 65536;
    assert Base(4) == 0x1_0000_0000;
    assert Base(6) == 0x1_0000_0000_0000;
  }

  lemma WordRange(m: seq<Byte>, a: nat)
    requires a + 8 <= |m|
    ensures Word(m, a) < TWO64
  {
    Base8();
    ToFromLE(m[a..a + 8]);
  }
}
