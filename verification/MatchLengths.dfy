// Match lengths as length symbols with extra bits (RFC 1951, section 3.2.5).
module MatchLengths {
  import opened PrefixCodes
  import opened Bits

  // The encoder's tables, indexed by the match length less 3: extra bits and symbol.
  function LenExtra(adj: nat): (e: nat)
    ensures e <= 5
  {
    if adj < 8 || adj == 255 then 0 else if adj < 16 then 1 else if adj < 32 then 2 else if adj < 64 then 3
        else if adj < 128 then 4
        else 5
  }

  function LenSym(adj: nat): nat { if adj == 255 then 285 else 257 + 4 * LenExtra(adj) + Upper(adj, LenExtra(adj)) }

  // The decoder's tables, indexed by the length symbol less 257.
  const LENGTH_EXTRA: seq<nat> := [0, 0, 0, 0, 0, 0, 0, 0, 1, 1, 1, 1, 2, 2, 2, 2, 3, 3, 3, 3, 4, 4, 4, 4, 5, 5, 5, 5,
      0, 0, 0]
  const LENGTH_RANGE: seq<nat> := [3, 4, 5, 6, 7, 8, 9, 10, 11, 13, 15, 17, 19, 23, 27, 31, 35, 43, 51, 59, 67, 83, 99,
      115, 131,
      163, 195, 227, 258, 0, 0]

  lemma Powers()
    ensures Pow2(0) == 1 && Pow2(1) == 2 && Pow2(2) == 4 && Pow2(3) == 8 && Pow2(4) == 16 && Pow2(5) == 32
  {
  }

  lemma Bands(adj: nat)
    requires adj < 255
    ensures var e := LenExtra(adj); var q := Upper(adj, e);
      && (e == 0 ==> q == adj < 8) && (e > 0 ==> 4 <= q < 8) && adj == q * Pow2(e) + Lower(adj, e)
  {
    var e := LenExtra(adj);
    LowerUpper(adj, e);
    Powers();
  }

  // The decoder's tables give back the extra bits and the length.
  lemma LengthBack(adj: nat)
    requires adj <= 255
    ensures 257 <= LenSym(adj) <= 285 && (LenSym(adj) == 285 <==> adj == 255)
    ensures LENGTH_EXTRA[LenSym(adj) - 257] == LenExtra(adj)
    ensures LENGTH_RANGE[LenSym(adj) - 257] + Lower(adj, LenExtra(adj)) == adj + 3
  {
    if adj == 255 { return; }
    Bands(adj);
    var e := LenExtra(adj);
    var q := Upper(adj, e);
    assert adj != 255 && LenSym(adj) == 257 + 4 * e + q;
    hide *;
    TableAt(e, q);
  }

  lemma Row0(q: nat)
    requires 0 <= q < 8
    ensures LENGTH_EXTRA[0 + q] == 0 && LENGTH_RANGE[0 + q] == 3 + 1 * q
  {
  }

  lemma Row1(q: nat)
    requires 4 <= q < 8
    ensures LENGTH_EXTRA[4 + q] == 1 && LENGTH_RANGE[4 + q] == 3 + 2 * q
  {
  }

  lemma Row2(q: nat)
    requires 4 <= q < 8
    ensures LENGTH_EXTRA[8 + q] == 2 && LENGTH_RANGE[8 + q] == 3 + 4 * q
  {
  }

  lemma Row3(q: nat)
    requires 4 <= q < 8
    ensures LENGTH_EXTRA[12 + q] == 3 && LENGTH_RANGE[12 + q] == 3 + 8 * q
  {
  }

  lemma Row4(q: nat)
    requires 4 <= q < 8
    ensures LENGTH_EXTRA[16 + q] == 4 && LENGTH_RANGE[16 + q] == 3 + 16 * q
  {
  }

  lemma Row5(q: nat)
    requires 4 <= q < 8
    ensures LENGTH_EXTRA[20 + q] == 5 && LENGTH_RANGE[20 + q] == 3 + 32 * q
  {
  }

  lemma TableAt(e: nat, q: nat)
    requires e <= 5 && (if e == 0 then q < 8 else 4 <= q < 8)
    ensures 4 * e + q < 28 && LENGTH_EXTRA[4 * e + q] == e
    ensures LENGTH_RANGE[4 * e + q] == 3 + q * Pow2(e)
  {
    hide *;
    Powers();
    if e == 0 { Row0(q); }
    else if e == 1 { Row1(q); }
    else if e == 2 { Row2(q); }
    else if e == 3 { Row3(q); }
    else if e == 4 { Row4(q); }
    else { Row5(q); }
  }
}
