// Numbers as bits, lowest first: the order in which Deflate packs them into bytes.
module Bits {
  import opened PrefixCodes

  function Digit(b: bool): nat { if b then 1 else 0 }

  // v modulo 2^n and v divided by 2^n.
  function Lower(v: nat, n: nat): nat { if n == 0 then 0 else v % 2 + 2 * Lower(v / 2, n - 1) }
  function Upper(v: nat, n: nat): nat { if n == 0 then v else Upper(v / 2, n - 1) }

  function ToBits(v: nat, n: nat): (r: seq<bool>)
    ensures |r| == n
  {
    if n == 0 then [] else [v % 2 == 1] + ToBits(v / 2, n - 1)
  }

  function Value(s: seq<bool>): nat { if s == [] then 0 else Digit(s[0]) + 2 * Value(s[1..]) }

  // The lowest n bits of v in opposite order.
  function Rev(v: nat, n: nat): nat { if n == 0 then 0 else (v % 2) * Pow2(n - 1) + Rev(v / 2, n - 1) }

  lemma Twice(x: nat, p: nat)
    ensures x * (2 * p) == 2 * (x * p)
  {
  }

  lemma {:induction false} LowerUpper(v: nat, n: nat)
    ensures v == Lower(v, n) + Upper(v, n) * Pow2(n) && Lower(v, n) < Pow2(n)
  {
    if n > 0 {
      LowerUpper(v / 2, n - 1);
      Twice(Upper(v, n), Pow2(n - 1));
    }
  }

  lemma {:induction false} Joined(a: nat, b: nat, n: nat)
    requires a < Pow2(n)
    ensures Lower(a + b * Pow2(n), n) == a && Upper(a + b * Pow2(n), n) == b
  {
    if n > 0 {
      var v := a + b * Pow2(n);
      Twice(b, Pow2(n - 1));
      assert v % 2 == a % 2 && v / 2 == a / 2 + b * Pow2(n - 1);
      Joined(a / 2, b, n - 1);
    }
  }

  lemma LowerId(v: nat, n: nat)
    requires v < Pow2(n)
    ensures Lower(v, n) == v && Upper(v, n) == 0
  {
    Joined(v, 0, n);
  }

  lemma {:induction false} UpperUpper(v: nat, a: nat, b: nat)
    ensures Upper(Upper(v, a), b) == Upper(v, a + b)
    decreases a
  {
    if a > 0 { UpperUpper(v / 2, a - 1, b); }
  }

  lemma {:induction false} LowerLower(v: nat, a: nat, b: nat)
    requires a <= b
    ensures Lower(Lower(v, b), a) == Lower(v, a)
  {
    if a > 0 { LowerLower(v / 2, a - 1, b - 1); }
  }

  // Low bits of the upper part are the middle bits.
  lemma {:induction false} UpperLower(v: nat, a: nat, b: nat)
    ensures Upper(Lower(v, a + b), a) == Lower(Upper(v, a), b)
    decreases a
  {
    if a > 0 { UpperLower(v / 2, a - 1, b); }
  }

  lemma DivideTwice(v: nat, a: nat, b: nat)
    requires a > 0 && b > 0
    ensures a * b > 0 && v / (a * b) == v / a / b
  {
    var q, r := v / a / b, v / a % b;
    DivModParts(v, a);
    DivModParts(v / a, b);
    assert v == q * (a * b) + (r * a + v % a) by { AssocAdd(q, b, r, a); assert q * (b * a) == q * (a * b); }
    MulMono(r + 1, b, a);
    AddMultiples(r, 1, a);
    assert b * a == a * b;
    ProductPositive(a, b);
    DivModIs(v, a * b, q, r * a + v % a);
  }

  lemma ProductPositive(a: nat, b: nat)
    requires a > 0 && b > 0
    ensures a * b > 0
  {
  }

  // --- bit sequences ---------------------------------------------------------------------------------------------

  lemma {:induction false} ToBitsSplit(v: nat, a: nat, b: nat)
    ensures ToBits(v, a + b) == ToBits(v, a) + ToBits(Upper(v, a), b)
    decreases a
  {
    if a == 0 {
      assert ToBits(v, 0) + ToBits(v, b) == ToBits(v, b);
    } else {
      ToBitsSplit(v / 2, a - 1, b);
      assert ToBits(v, a + b) == [v % 2 == 1] + (ToBits(v / 2, a - 1) + ToBits(Upper(v, a), b));
    }
  }

  lemma {:induction false} ToBitsLower(v: nat, n: nat)
    ensures ToBits(Lower(v, n), n) == ToBits(v, n)
  {
    if n > 0 { ToBitsLower(v / 2, n - 1); }
  }

  // Putting x above the n bits of v appends its bits.
  lemma ToBitsAppend(v: nat, n: nat, x: nat, l: nat)
    requires v < Pow2(n)
    ensures ToBits(v + x * Pow2(n), n + l) == ToBits(v, n) + ToBits(x, l)
  {
    var w := v + x * Pow2(n);
    Joined(v, x, n);
    ToBitsSplit(w, n, l);
    ToBitsLower(w, n);
  }

  lemma {:induction false} ValueToBits(v: nat, n: nat)
    ensures Value(ToBits(v, n)) == Lower(v, n)
  {
    if n > 0 {
      assert ToBits(v, n)[1..] == ToBits(v / 2, n - 1);
      ValueToBits(v / 2, n - 1);
    }
  }

  lemma {:induction false} ToBitsValue(s: seq<bool>)
    ensures ToBits(Value(s), |s|) == s && Value(s) < Pow2(|s|)
  {
    if s != [] {
      ToBitsValue(s[1..]);
      assert s == [s[0]] + s[1..];
    }
  }

  // --- reversal ----------------------------------------------------------------------------------------------------

  lemma {:induction false} RevBound(v: nat, n: nat)
    ensures Rev(v, n) < Pow2(n)
  {
    if n > 0 {
      RevBound(v / 2, n - 1);
      MulMono(v % 2, 1, Pow2(n - 1));
    }
  }

  // The highest bit of a number is the lowest of its reversal.
  lemma {:induction false} RevLast(v: nat, b: nat, n: nat)
    requires v < Pow2(n) && b < 2
    ensures Rev(v + b * Pow2(n), n + 1) == b + 2 * Rev(v, n)
  {
    if n == 0 {
      assert Rev(b, 1) == (b % 2) * Pow2(0) + Rev(b / 2, 0);
    } else {
      var w := v + b * Pow2(n);
      Twice(b, Pow2(n - 1));
      assert w % 2 == v % 2 && w / 2 == v / 2 + b * Pow2(n - 1);
      RevLast(v / 2, b, n - 1);
      assert Rev(w, n + 1) == (v % 2) * Pow2(n) + Rev(w / 2, n);
      Twice(v % 2, Pow2(n - 1));
    }
  }

  // Low and high part change places.
  lemma {:induction false} RevSplit(v: nat, a: nat, b: nat)
    ensures Rev(v, a + b) == Rev(v, a) * Pow2(b) + Rev(Upper(v, a), b)
    decreases a
  {
    if a > 0 {
      RevSplit(v / 2, a - 1, b);
      PowAdd(a - 1, b);
      AssocAdd(v % 2, Pow2(a - 1), Rev(v / 2, a - 1), Pow2(b));
    }
  }

  lemma AssocAdd(x: nat, p: nat, y: nat, q: nat)
    ensures (x * p + y) * q == x * (p * q) + y * q
  {
    assert x * (p * q) == (x * p) * q;
  }

  lemma {:induction false} RevLower(v: nat, n: nat)
    ensures Rev(Lower(v, n), n) == Rev(v, n)
  {
    if n > 0 { RevLower(v / 2, n - 1); }
  }

  lemma {:induction false} RevTwice(v: nat, n: nat)
    ensures Rev(Rev(v, n), n) == Lower(v, n)
  {
    if n > 0 {
      RevBound(v / 2, n - 1);
      RevLast(Rev(v / 2, n - 1), v % 2, n - 1);
      RevTwice(v / 2, n - 1);
    }
  }

  // The loop that both encoder and decoder use.
  method Reverse(v: nat, n: nat) returns (r: nat)
    ensures r == Rev(v, n)
  {
    r := 0;
    var code, l := v, n;
    while l > 0
      invariant 0 <= l <= n && 0 <= code && r * Pow2(l) + Rev(code, l) == Rev(v, n)
    {
      AssocAdd(r, 2, code % 2, Pow2(l - 1));
      r := r * 2 + code % 2;
      code := code / 2;
      l := l - 1;
    }
  }
}
