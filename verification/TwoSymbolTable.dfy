// The second pass over the decoder's table: where the code of a literal leaves room in the 12-bit window for
// the next code, the entry also names the next symbol.
module TwoSymbolTable {
  import opened PrefixCodes
  import opened Bits
  import opened CanonicalCodes
  import opened DecoderTable

  // The fields of an entry: 9 bits symbol, 4 bits length, and the same for the second symbol 16 bits higher.
  function Sym(e: nat): nat { e % 512 }
  function Len(e: nat): nat { (e / 512) % 16 }
  function Sym2(e: nat): nat { (e / 65536) % 512 }
  function Len2(e: nat): nat { e / 33554432 }
  function Half2(e: nat): nat { e / 65536 }

  // What the entry for window i becomes.
  function Paired(t: seq<nat>, i: nat, minCodeSize: nat): nat
    requires |t| == TABLE_SIZE && i < TABLE_SIZE
  {
    var bits := Len(t[i]);
    if Sym(t[i]) >= 256 || bits == 0 || bits > TABLE_BITS || TABLE_BITS - bits < minCodeSize then t[i]
    else
      var next := Upper(i, bits);
      if next >= TABLE_SIZE || Len(t[next]) == 0 || TABLE_BITS - bits < Len(t[next]) then t[i]
      else t[i] + 65536 * Entry(Sym(t[next]), Len(t[next]))
  }

  // A single-symbol entry.
  ghost predicate Single(e: nat) { e == 0 || (e == Entry(Sym(e), Len(e)) && 0 < Len(e) <= TABLE_BITS) }

  lemma Fields(s: nat, l: nat, s2: nat, l2: nat)
    requires s < 512 && l < 16 && s2 < 512
    ensures var e := Entry(s, l) + 65536 * Entry(s2, l2);
      Sym(e) == s && Len(e) == l && Sym2(e) == s2 && Len2(e) == l2 && Half2(e) == Entry(s2, l2)
  {
    var f := Entry(s2, l2);
    var e := Entry(s, l) + 65536 * f;
    DivModIs(e, 512, l + 128 * f, s);
    DivModIs(l + 128 * f, 16, 8 * f, l);
    DivModIs(e, 65536, f, Entry(s, l));
    DivModIs(f, 512, l2, s2);
    DivModIs(e, 33554432, l2, Entry(s, l) + 65536 * s2);
  }

  lemma SingleFields(s: nat, l: nat)
    requires s < 512 && l < 16
    ensures Sym(Entry(s, l)) == s && Len(Entry(s, l)) == l
      && Sym2(Entry(s, l)) == Len2(Entry(s, l)) == Half2(Entry(s, l)) == 0
  {
    Fields(s, l, 0, 0);
  }

  ghost predicate AllSingle(t: seq<nat>) { |t| == TABLE_SIZE && forall i :: 0 <= i < TABLE_SIZE ==> Single(t[i]) }

  lemma PairedFields(t: seq<nat>, i: nat, minCodeSize: nat)
    requires AllSingle(t) && i < TABLE_SIZE
    ensures var e := Paired(t, i, minCodeSize);
      && Sym(e) == Sym(t[i]) && Len(e) == Len(t[i])
      && (e == t[i] ==> Half2(e) == 0)
      && (e != t[i] ==>
            && 0 < Len(t[i]) <= TABLE_BITS && Sym(t[i]) < 256 && Upper(i, Len(t[i])) < TABLE_SIZE
            && Half2(e) == t[Upper(i, Len(t[i]))] && Len(t[i]) + Len2(e) <= TABLE_BITS && Len2(e) == Len(Half2(e)) > 0
                && Sym2(e) == Sym(Half2(e)))
  {
    assert Single(t[i]);
    SingleFields(Sym(t[i]), Len(t[i]));
    var e := Paired(t, i, minCodeSize);
    if e != t[i] {
      var next := Upper(i, Len(t[i]));
      assert Single(t[next]);
      Fields(Sym(t[i]), Len(t[i]), Sym(t[next]), Len(t[next]));
    }
  }

  lemma UpperSmaller(v: nat, n: nat)
    ensures Upper(v, n) <= v
  {
    if n > 0 { UpperSmaller(v / 2, n - 1); }
  }

  // The pass works in place: an entry it reads may already have been paired, but its lower fields are intact.
  method AddSecondSymbols(table: array<nat>, minCodeSize: nat)
    requires AllSingle(table[..])
    modifies table
    ensures forall i :: 0 <= i < TABLE_SIZE ==> table[i] == Paired(old(table[..]), i, minCodeSize)
  {
    ghost var t := table[..];
    var i := 0;
    while i < TABLE_SIZE
      invariant 0 <= i <= TABLE_SIZE
      invariant forall j :: 0 <= j < i ==> table[j] == Paired(t, j, minCodeSize)
      invariant forall j :: i <= j < TABLE_SIZE ==> table[j] == t[j]
    {
      assert Single(t[i]);
      var sym := table[i] % 512;
      var symBits := (table[i] / 512) % 16;
      if sym < 256 && symBits != 0 {
        var bitsLeft := TABLE_BITS - symBits;
        if bitsLeft >= minCodeSize {
          var nextBits := Upper(i, symBits);
          UpperSmaller(i, symBits);
          if nextBits < i { PairedFields(t, nextBits, minCodeSize); }
          var nextSym := table[nextBits] % 512;
          var nextSymBits := (table[nextBits] / 512) % 16;
          assert nextSym == Sym(t[nextBits]) && nextSymBits == Len(t[nextBits]);
          if nextSymBits != 0 && bitsLeft >= nextSymBits {
            table[i] := table[i] + 65536 * (nextSym + 512 * nextSymBits);
          }
        }
      }
      i := i + 1;
    }
  }

  // The finished table for a code.
  ghost predicate PairedTable(sizes: seq<nat>, table: seq<nat>, single: seq<nat>, minCodeSize: nat) {
    && |sizes| <= MAX_SYMBOLS && Limited(sizes, TABLE_BITS) && Fits(sizes, TABLE_BITS) && Lookup(sizes, single)
        && |table| == TABLE_SIZE
    && (forall s :: 0 <= s < |sizes| && sizes[s] > 0 ==> minCodeSize <= sizes[s])
    && forall i :: 0 <= i < TABLE_SIZE ==> table[i] == Paired(single, i, minCodeSize)
  }

  // The entry for the next 12 bits of a stream x.
  function Peek(t: seq<nat>, x: nat): nat
    requires |t| == TABLE_SIZE
  {
    LowerUpper(x, TABLE_BITS);
    TableSizeIs();
    t[Lower(x, TABLE_BITS)]
  }

  // What follows: the symbol whose code starts the stream x, of length l.
  ghost predicate Starts(sizes: seq<nat>, x: nat, s: nat, l: nat) { Matches(sizes, x, s) && l == sizes[s] }

  lemma LookupSingle(sizes: seq<nat>, t: seq<nat>)
    requires |sizes| <= MAX_SYMBOLS && Limited(sizes, TABLE_BITS) && Lookup(sizes, t)
    ensures AllSingle(t)
  {
    forall i | 0 <= i < TABLE_SIZE
      ensures Single(t[i])
    {
      if t[i] != 0 {
        var s: nat :| Matches(sizes, i, s);
        SingleFields(s, sizes[s]);
      }
    }
  }

  lemma MatchesLower(sizes: seq<nat>, x: nat, y: nat, s: nat, n: nat)
    requires Lower(x, n) == Lower(y, n) && s < |sizes| && sizes[s] <= n
    ensures Matches(sizes, x, s) <==> Matches(sizes, y, s)
  {
    LowerLower(x, sizes[s], n);
    LowerLower(y, sizes[s], n);
  }

  // Looking up the next 12 bits of a stream x in the one-symbol table.
  lemma LookupStream(sizes: seq<nat>, t: seq<nat>, x: nat)
    requires |sizes| <= MAX_SYMBOLS && Limited(sizes, TABLE_BITS) && Lookup(sizes, t)
    ensures var e := Peek(t, x);
      && (Len(e) != 0 ==> Starts(sizes, x, Sym(e), Len(e)))
      && forall s: nat :: Matches(sizes, x, s) ==> e == Entry(s, sizes[s]) && Sym(e) == s && Len(e) == sizes[s]
  {
    LowerUpper(x, TABLE_BITS);
    TableSizeIs();
    var w := Lower(x, TABLE_BITS);
    LowerLower(x, TABLE_BITS, TABLE_BITS);
    forall s: nat | s < |sizes|
      ensures Matches(sizes, x, s) <==> Matches(sizes, w, s)
      ensures Sym(Entry(s, sizes[s])) == s && Len(Entry(s, sizes[s])) == sizes[s]
    {
      MatchesLower(sizes, x, w, s, TABLE_BITS);
      SingleFields(s, sizes[s]);
    }
    if Len(t[w]) != 0 {
      var s: nat :| Matches(sizes, w, s);
      assert t[w] == Entry(s, sizes[s]);
    }
  }

  // The entry for the bits after the first code agrees with the stream.
  lemma NextWindowOf(sizes: seq<nat>, x: nat, bits: nat, s: nat)
    requires bits <= TABLE_BITS && s < |sizes| && sizes[s] <= TABLE_BITS - bits
    ensures Matches(sizes, Upper(Lower(x, TABLE_BITS), bits), s) <==> Matches(sizes, Upper(x, bits), s)
  {
    UpperLower(x, bits, TABLE_BITS - bits);
    LowerLower(Upper(x, bits), TABLE_BITS - bits, TABLE_BITS - bits);
    MatchesLower(sizes, Lower(Upper(x, bits), TABLE_BITS - bits), Upper(x, bits), s, TABLE_BITS - bits);
  }

  // Whatever the stream holds: the lower half of an entry is the single lookup, and the upper half, if there is
  // one, is the single lookup of what follows the first code. It is there exactly if the first symbol is
  // a literal and both codes fit the window.
  lemma TwoLookups(sizes: seq<nat>, table: seq<nat>, single: seq<nat>, minCodeSize: nat, x: nat)
    requires PairedTable(sizes, table, single, minCodeSize)
    ensures var e := Peek(table, x);
      && Sym(e) == Sym(Peek(single, x)) && Len(e) == Len(Peek(single, x))
      && (Len2(e) != 0 ==>
            && Half2(e) == Peek(single, Upper(x, Len(e))) && Len2(e) == Len(Half2(e)) && Sym2(e) == Sym(Half2(e))
            && Sym(e) < 256 && Len(e) > 0 && Len(e) + Len2(e) <= TABLE_BITS)
      && (Half2(e) != 0 <==> Len2(e) != 0)
      && (forall s: nat :: Len(e) > 0 && Sym(e) < 256 && Matches(sizes, Upper(x, Len(e)), s) && Len(e) + sizes[s] <= TABLE_BITS ==>
            Len2(e) == sizes[s] && Sym2(e) == s)
  {
    LookupSingle(sizes, single);
    LookupStream(sizes, single, x);
    LowerUpper(x, TABLE_BITS);
    var w := Lower(x, TABLE_BITS);
    TableSizeIs();
    var e := table[w];
    PairedFields(single, w, minCodeSize);
    assert Single(single[w]);
    var next := Upper(w, Len(e));
    UpperSmaller(w, Len(e));
    assert Single(single[next]);
    LookupStream(sizes, single, next);
    LookupStream(sizes, single, Upper(x, Len(e)));
    LowerUpper(next, TABLE_BITS);
    LowerId(next, TABLE_BITS);
    if e != single[w] {
      NextWindowOf(sizes, x, Len(e), Sym(single[next]));
    }
    forall s: nat | Len(e) > 0 && Sym(e) < 256 && Matches(sizes, Upper(x, Len(e)), s) && Len(e) + sizes[s] <= TABLE_BITS
      ensures Len2(e) == sizes[s] && Sym2(e) == s
    {
      NextWindowOf(sizes, x, Len(e), s);
      Fields(Sym(single[w]), Len(single[w]), s, sizes[s]);
    }
  }
}
