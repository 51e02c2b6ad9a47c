// Symbols without a code at the end of a sequence of code lengths make no difference.
module UnusedSymbols {
  import opened PrefixCodes
  import opened Bits
  import opened CanonicalCodes

  // After position n there are no codes.
  ghost predicate Trailing(sizes: seq<nat>, n: nat) { n <= |sizes| && forall s :: n <= s < |sizes| ==> sizes[s] == 0 }

  lemma {:induction false} SameCount(sizes: seq<nat>, n: nat, k: nat)
    requires Trailing(sizes, n) && k > 0
    ensures Count(sizes, k) == Count(sizes[..n], k)
    decreases |sizes|
  {
    var m := |sizes| - 1;
    if m >= n {
      SameCount(sizes[..m], n, k);
      assert sizes[..m][..n] == sizes[..n];
    } else {
      assert sizes[..n] == sizes;
    }
  }

  lemma {:induction false} SameStart(sizes: seq<nat>, n: nat, k: nat)
    requires Trailing(sizes, n)
    ensures Start(sizes, k) == Start(sizes[..n], k)
    decreases k
  {
    if k > 1 {
      SameStart(sizes, n, k - 1);
      SameCount(sizes, n, k - 1);
    }
  }

  lemma {:induction false} SameSpace(sizes: seq<nat>, n: nat, k: nat, m: nat)
    requires Trailing(sizes, n) && k <= m
    ensures Space(sizes, k, m) == Space(sizes[..n], k, m) && Used(sizes, k) == Used(sizes[..n], k)
    decreases k
  {
    if k > 0 {
      SameSpace(sizes, n, k - 1, m);
      SameCount(sizes, n, k);
    }
  }

  lemma SameCode(sizes: seq<nat>, n: nat, s: nat)
    requires Trailing(sizes, n) && s < n
    ensures CodeOf(sizes, s) == CodeOf(sizes[..n], s)
  {
    SameStart(sizes, n, sizes[s]);
    assert sizes[..n][..s] == sizes[..s];
  }

  lemma SameMatches(sizes: seq<nat>, n: nat, w: nat, s: nat)
    requires Trailing(sizes, n)
    ensures Matches(sizes, w, s) <==> Matches(sizes[..n], w, s)
  {
    if s < n { SameCode(sizes, n, s); }
  }

  lemma SameUsable(sizes: seq<nat>, n: nat)
    requires Trailing(sizes, n)
    ensures Usable(sizes) <==> Usable(sizes[..n])
    ensures Limited(sizes, TABLE_BITS) <==> Limited(sizes[..n], TABLE_BITS)
  {
    SameSpace(sizes, n, TABLE_BITS, TABLE_BITS);
    SameSpace(sizes, n, 15, 15);
    hide Space, Used, Pow2;
    if Limited(sizes[..n], TABLE_BITS) {
      forall s | 0 <= s < |sizes|
        ensures sizes[s] <= TABLE_BITS
      {
        assert s < n ==> sizes[s] == sizes[..n][s];
      }
    }
  }

  lemma SameLookup(sizes: seq<nat>, n: nat, table: seq<nat>)
    requires Trailing(sizes, n) && Lookup(sizes[..n], table)
    ensures Lookup(sizes, table)
  {
    hide Lower, Rev, CodeOf;
    forall w: nat, s: nat | w < TABLE_SIZE && Matches(sizes, w, s)
      ensures table[w] == Entry(s, sizes[s])
    {
      SameMatches(sizes, n, w, s);
    }
    forall w: nat | w < TABLE_SIZE && table[w] != 0
      ensures exists s: nat :: Matches(sizes, w, s)
    {
      var s: nat :| Matches(sizes[..n], w, s);
      SameMatches(sizes, n, w, s);
    }
  }
}
