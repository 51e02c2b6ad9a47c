// Codes for a whole alphabet, some of whose symbols do not occur, and codes for a list of those that do.
module CheapestCodes {
  import opened PrefixCodes
  import opened CanonicalCodes

  // No canonical code with a code for every symbol that occurs makes the text shorter.
  ghost predicate Cheapest(sizes: seq<nat>, counts: seq<nat>) {
    |sizes| == |counts| && forall other: seq<nat>, m: nat ::
      Fits(other, m) && |other| == |counts| && (forall s :: 0 <= s < |counts| && counts[s] > 0 ==> other[s] > 0) ==>
        Cost(counts, sizes) <= Cost(counts, other)
  }

  // The symbols that occur, each once.
  ghost predicate Covers(syms: seq<nat>, counts: seq<nat>) {
    && (forall i :: 0 <= i < |syms| ==> syms[i] < |counts|)
    && (forall i, j :: 0 <= i < j < |syms| ==> syms[i] != syms[j])
    && forall s :: 0 <= s < |counts| && counts[s] > 0 ==> s in syms
  }

  ghost function Pick(v: seq<nat>, syms: seq<nat>): (r: seq<nat>)
    requires forall i :: 0 <= i < |syms| ==> syms[i] < |v|
    ensures |r| == |syms| && forall i :: 0 <= i < |r| ==> r[i] == v[syms[i]]
  {
    seq(|syms|, i requires 0 <= i < |syms| => v[syms[i]])
  }

  lemma {:induction false} CostNothing(v: seq<nat>, s: seq<nat>)
    requires |v| == |s| && forall i :: 0 <= i < |v| ==> v[i] == 0
    ensures Cost(v, s) == 0
    decreases |v|
  {
    if |v| > 0 { CostNothing(v[1..], s[1..]); }
  }

  lemma {:induction false} CostWithout(v: seq<nat>, s: seq<nat>, x: nat)
    requires x < |v| == |s|
    ensures Cost(v, s) == Cost(v[x := 0], s) + v[x] * s[x]
    decreases |v|
  {
    if x > 0 {
      CostWithout(v[1..], s[1..], x - 1);
      assert v[x := 0][1..] == v[1..][x - 1 := 0];
    } else {
      assert v[0 := 0][1..] == v[1..];
    }
  }

  // The symbols without the first.
  lemma CoversRest(syms: seq<nat>, counts: seq<nat>)
    requires Covers(syms, counts) && |syms| > 0
    ensures Covers(syms[1..], counts[syms[0] := 0])
    ensures Pick(counts[syms[0] := 0], syms[1..]) == Pick(counts, syms)[1..]
  {
    var rest, less := syms[1..], counts[syms[0] := 0];
    forall s | 0 <= s < |less| && less[s] > 0
      ensures s in rest
    {
      var i :| 0 <= i < |syms| && syms[i] == s;
      assert rest[i - 1] == s;
    }
  }

  // Symbols that do not occur cost nothing.
  lemma {:induction false} CostPicked(counts: seq<nat>, sizes: seq<nat>, syms: seq<nat>)
    requires Covers(syms, counts) && |sizes| == |counts|
    ensures Cost(Pick(counts, syms), Pick(sizes, syms)) == Cost(counts, sizes)
    decreases |syms|
  {
    hide Pick;
    if |syms| == 0 {
      CostNothing(counts, sizes);
    } else {
      var x := syms[0];
      CostWithout(counts, sizes, x);
      CoversRest(syms, counts);
      CostPicked(counts[x := 0], sizes, syms[1..]);
      assert Pick(sizes, syms[1..]) == Pick(sizes, syms)[1..];
    }
  }

  lemma {:induction false} CountChanged(sizes: seq<nat>, x: nat, v: nat, k: nat)
    requires x < |sizes| && sizes[x] == 0 && k > 0
    ensures Count(sizes[x := v], k) == Count(sizes, k) + if v == k then 1 else 0
    decreases |sizes|
  {
    var n := |sizes| - 1;
    if x < n {
      CountChanged(sizes[..n], x, v, k);
      assert sizes[x := v][..n] == sizes[..n][x := v];
    } else {
      assert sizes[x := v][..n] == sizes[..n];
    }
  }

  lemma {:induction false} SpaceChanged(sizes: seq<nat>, x: nat, v: nat, k: nat, m: nat)
    requires x < |sizes| && sizes[x] == 0 && 0 < v <= m && k <= m
    ensures Space(sizes[x := v], k, m) == Space(sizes, k, m) + if v <= k then Pow2(m - v) else 0
    decreases k
  {
    if k > 0 {
      SpaceChanged(sizes, x, v, k - 1, m);
      CountChanged(sizes, x, v, k);
      if v == k { OneMoreTimes(Count(sizes, k), Pow2(m - k)); }
    }
  }

  lemma OneMoreTimes(n: nat, p: nat)
    ensures (n + 1) * p == n * p + p
  {
  }

  // The codes of distinct symbols take no more than the space of all codes.
  lemma {:induction false} KraftPicked(sizes: seq<nat>, syms: seq<nat>, m: nat)
    requires (forall i :: 0 <= i < |syms| ==> syms[i] < |sizes| && 0 < sizes[syms[i]] <= m)
    requires forall i, j :: 0 <= i < j < |syms| ==> syms[i] != syms[j]
    ensures Bounded(Pick(sizes, syms), m) && Kraft(Pick(sizes, syms), m) <= Space(sizes, m, m)
    decreases |syms|
  {
    hide Pick, Space;
    if |syms| > 0 {
      var x := syms[0];
      var less := sizes[x := 0];
      KraftPicked(less, syms[1..], m);
      SpaceChanged(less, x, sizes[x], m, m);
      assert less[x := sizes[x]] == sizes;
      assert Pick(less, syms[1..]) == Pick(sizes, syms)[1..];
    }
  }

  // The code for the list makes a code for the alphabet.
  lemma PickedCheapest(sizes: seq<nat>, counts: seq<nat>, syms: seq<nat>)
    requires Covers(syms, counts) && |sizes| == |counts| && (forall i :: 0 <= i < |syms| ==> counts[syms[i]] > 0)
    requires Optimal(Pick(counts, syms), Pick(sizes, syms))
    ensures Cheapest(sizes, counts)
  {
    hide Pick, Cost, Space, Kraft;
    forall other: seq<nat>, m: nat | Fits(other, m) && |other| == |counts|
      && (forall s :: 0 <= s < |counts| && counts[s] > 0 ==> other[s] > 0)
      ensures Cost(counts, sizes) <= Cost(counts, other)
    {
      CostPicked(counts, sizes, syms);
      CostPicked(counts, other, syms);
      KraftPicked(other, syms, m);
      assert Code(Pick(other, syms), m);
    }
  }

  // Symbols without a code do not count.
  lemma {:induction false} CountPicked(sizes: seq<nat>, syms: seq<nat>, k: nat)
    requires Covers(syms, sizes) && k > 0
    ensures Count(Pick(sizes, syms), k) == Count(sizes, k)
    decreases |syms|
  {
    hide Pick;
    if |syms| == 0 {
      CountsNone(sizes, k);
    } else {
      var x := syms[0];
      var less, picked := sizes[x := 0], Pick(sizes, syms);
      CoversRest(syms, sizes);
      CountPicked(less, syms[1..], k);
      CountChanged(less, x, sizes[x], k);
      assert less[x := sizes[x]] == sizes;
      assert picked == [picked[0]] + picked[1..];
      CountConcat([picked[0]], picked[1..], k);
      assert [picked[0]][..0] == [];
    }
  }

  // Lengths for the symbols of a list, 0 for all others.
  ghost function SpreadOut(n: nat, syms: seq<nat>, lens: seq<nat>): (r: seq<nat>)
    requires |syms| == |lens| && forall i :: 0 <= i < |syms| ==> syms[i] < n
    ensures |r| == n
  {
    if |syms| == 0 then seq(n, _ => 0) else SpreadOut(n, syms[1..], lens[1..])[syms[0] := lens[0]]
  }

  lemma {:induction false} SpreadOutIs(n: nat, syms: seq<nat>, lens: seq<nat>)
    requires |syms| == |lens| && forall i :: 0 <= i < |syms| ==> syms[i] < n
    requires forall i, j :: 0 <= i < j < |syms| ==> syms[i] != syms[j]
    ensures Pick(SpreadOut(n, syms, lens), syms) == lens
    ensures forall s :: 0 <= s < n && s !in syms ==> SpreadOut(n, syms, lens)[s] == 0
    decreases |syms|
  {
    if |syms| > 0 {
      SpreadOutIs(n, syms[1..], lens[1..]);
      var r, rest := SpreadOut(n, syms, lens), SpreadOut(n, syms[1..], lens[1..]);
      forall i | 0 <= i < |syms|
        ensures r[syms[i]] == lens[i]
      {
        if i > 0 { assert Pick(rest, syms[1..])[i - 1] == rest[syms[1..][i - 1]]; }
      }
      assert forall s :: s in syms <==> s == syms[0] || s in syms[1..];
    }
  }

  // --- lengths that never rise ---------------------------------------------------------------------

  ghost predicate NeverRises(s: seq<nat>) { forall i, j :: 0 <= i <= j < |s| ==> s[i] >= s[j] }

  lemma {:induction false} CountsNone(s: seq<nat>, k: nat)
    requires forall i :: 0 <= i < |s| ==> s[i] != k
    ensures Count(s, k) == 0
    decreases |s|
  {
    if |s| > 0 { CountsNone(s[..|s| - 1], k); }
  }

  // They are determined by how many of each length there are.
  lemma {:induction false} SameFall(s: seq<nat>, t: seq<nat>, m: nat)
    requires NeverRises(s) && NeverRises(t) && |s| == |t|
      && (forall i :: 0 <= i < |s| ==> 0 < s[i] <= m && 0 < t[i] <= m)
    requires forall k :: 0 < k <= m ==> Count(s, k) == Count(t, k)
    ensures s == t
    decreases |s|
  {
    if |s| > 0 {
      var n := |s| - 1;
      if s[n] < t[n] { CountsNone(t, s[n]); }
      if t[n] < s[n] { CountsNone(s, t[n]); }
      assert forall k :: 0 < k <= m ==> Count(s[..n], k) == Count(s, k) - if s[n] == k then 1 else 0;
      SameFall(s[..n], t[..n], m);
      assert s == s[..n] + [s[n]] && t == t[..n] + [t[n]];
    }
  }
}
