// Limiting the lengths of a complete code: the counts of codes of every length are changed, keeping their
// number, until the longest allowed length suffices.
module CodeLimits {
  import opened PrefixCodes

  const MAX_SUPPORTED := 32

  // How many codes have lengths 1..k, c[i] being the number of codes of length i.
  ghost function Codes(c: seq<int>, k: nat): int
    requires k < |c|
  {
    if k == 0 then 0 else c[k] + Codes(c, k - 1)
  }

  // The share of the code space that codes of lengths 1..k take, in units of 2^-m.
  ghost function Room(c: seq<int>, k: nat, m: nat): int
    requires k < |c| && k <= m
  {
    if k == 0 then 0 else c[k] * Pow2(m - k) + Room(c, k - 1, m)
  }

  ghost predicate Counts(c: seq<int>) { forall i :: 1 <= i < |c| ==> c[i] >= 0 }

  lemma {:induction false} CodesChange(c: seq<int>, d: seq<int>, k: nat, j: nat)
    requires |c| == |d| && 1 <= j <= k < |c| && forall i :: 1 <= i <= k && i != j ==> d[i] == c[i]
    ensures Codes(d, k) == Codes(c, k) + d[j] - c[j]
  {
    if j < k { CodesChange(c, d, k - 1, j); } else { CodesSame(c, d, k - 1); }
  }

  lemma {:induction false} CodesSame(c: seq<int>, d: seq<int>, k: nat)
    requires |c| == |d| && k < |c| && forall i :: 1 <= i <= k ==> d[i] == c[i]
    ensures Codes(d, k) == Codes(c, k)
  {
    if k > 0 { CodesSame(c, d, k - 1); }
  }

  lemma {:induction false} RoomChange(c: seq<int>, d: seq<int>, k: nat, m: nat, j: nat)
    requires |c| == |d| && 1 <= j <= k < |c| && k <= m && forall i :: 1 <= i <= k && i != j ==> d[i] == c[i]
    ensures Room(d, k, m) == Room(c, k, m) + (d[j] - c[j]) * Pow2(m - j)
  {
    if j < k {
      RoomChange(c, d, k - 1, m, j);
    } else {
      RoomSame(c, d, k - 1, m);
      Spread(c[j], d[j], Pow2(m - j));
    }
  }

  lemma Spread(a: int, b: int, p: int)
    ensures b * p == a * p + (b - a) * p
  {
  }

  lemma {:induction false} RoomSame(c: seq<int>, d: seq<int>, k: nat, m: nat)
    requires |c| == |d| && k < |c| && k <= m && forall i :: 1 <= i <= k ==> d[i] == c[i]
    ensures Room(d, k, m) == Room(c, k, m)
  {
    if k > 0 { RoomSame(c, d, k - 1, m); }
  }

  lemma {:induction false} RoomScale(c: seq<int>, k: nat, m: nat, e: nat)
    requires k < |c| && k <= m
    ensures Room(c, k, m + e) == Room(c, k, m) * Pow2(e)
  {
    if k > 0 {
      RoomScale(c, k - 1, m, e);
      PowAdd(m - k, e);
      Assoc(c[k], Pow2(m - k), Pow2(e), Room(c, k - 1, m));
    }
  }

  lemma Assoc(a: int, p: int, q: int, r: int)
    ensures a * (p * q) + r * q == (a * p + r) * q
  {
    assert a * (p * q) == (a * p) * q;
  }

  // Long codes take less room than as many codes of the greatest length allowed.
  lemma {:induction false} LongCodes(c: seq<int>, limit: nat, k: nat, m: nat)
    requires Counts(c) && limit <= k < |c| && k <= m
    ensures var n, d := Codes(c, k) - Codes(c, limit), Pow2(m - limit);
      && n >= 0 && Room(c, limit, limit) * d <= Room(c, k, m) <= (Room(c, limit, limit) + n) * d
      && (n > 0 ==> Room(c, limit, limit) * d < Room(c, k, m))
      && (n == 0 ==> forall i :: limit < i <= k ==> c[i] == 0)
  {
    if k == limit {
      RoomScale(c, limit, limit, m - limit);
    } else {
      LongCodes(c, limit, k - 1, m);
      var s, n, d := Room(c, limit, limit), Codes(c, k - 1) - Codes(c, limit), Pow2(m - limit);
      PowMono(m - k, m - limit);
      MulMono(Pow2(m - k), d, c[k]);
      Grouped(s + n, c[k], d);
      if c[k] > 0 { MulMono(1, c[k], Pow2(m - k)); }
    }
  }

  lemma Grouped(a: int, b: int, d: int)
    ensures (a + b) * d == a * d + d * b
  {
  }

  lemma {:induction false} PowMono(a: nat, b: nat)
    requires a <= b
    ensures Pow2(a) <= Pow2(b)
  {
    if a < b { PowMono(a, b - 1); }
  }

  // A complete code, cut off at limit: the cut-off codes overfill the space by less than their number.
  lemma Overfull(c: seq<int>, limit: nat, m: nat)
    requires Counts(c) && limit <= m < |c| && Room(c, m, m) == Pow2(m)
    ensures var n := Codes(c, m) - Codes(c, limit);
      && 0 <= Room(c, limit, limit) + n - Pow2(limit)
      && (if n > 0 then Room(c, limit, limit) + n - Pow2(limit) < n else Room(c, limit, limit) == Pow2(limit))
  {
    var s, n, d := Room(c, limit, limit), Codes(c, m) - Codes(c, limit), Pow2(m - limit);
    LongCodes(c, limit, m, m);
    PowAdd(limit, m - limit);
    Compare(s, Pow2(limit), d);
    Compare(Pow2(limit), s + n, d);
    Compare(Pow2(limit), s, d);
  }

  lemma Compare(a: int, b: int, d: nat)
    requires d > 0
    ensures a * d <= b * d ==> a <= b
    ensures a * d < b * d ==> a < b
  {
    if b < a { IntMono(b + 1, a, d); }
  }

  lemma IntMono(p: int, q: int, d: nat)
    requires p <= q
    ensures p * d <= q * d
  {
    assert q * d - p * d == (q - p) * d;
  }

  // If only the greatest length is in use, the room taken is the number of codes.
  lemma {:induction false} OnlyLongest(c: seq<int>, k: nat, m: nat)
    requires k < |c| && k <= m && forall i :: 1 <= i <= k ==> c[i] == 0
    ensures Codes(c, k) == 0 && Room(c, k, m) == 0
  {
    if k > 0 { OnlyLongest(c, k - 1, m); }
  }

  // One round: one code of length i and one of the greatest length become two codes of length i + 1.
  lemma Lengthened(c: seq<int>, d: seq<int>, limit: nat, i: nat)
    requires |c| == |d| && 1 <= i < limit < |c|
    requires d == c[limit := c[limit] - 1][i := c[i] - 1][i + 1 := c[limit := c[limit] - 1][i + 1] + 2]
    ensures Codes(d, limit) == Codes(c, limit) && Room(d, limit, limit) == Room(c, limit, limit) - 1
  {
    var c1 := c[limit := c[limit] - 1];
    var c2 := c1[i := c1[i] - 1];
    CodesChange(c, c1, limit, limit);
    CodesChange(c1, c2, limit, i);
    CodesChange(c2, d, limit, i + 1);
    RoomChange(c, c1, limit, limit, limit);
    RoomChange(c1, c2, limit, limit, i);
    RoomChange(c2, d, limit, limit, i + 1);
    assert Pow2(limit - i) == 2 * Pow2(limit - (i + 1));
  }

  // The greatest length up to i that is in use, or 0.
  ghost function InUse(c: seq<int>, i: nat): (j: nat)
    requires i < |c|
    ensures j <= i && (forall k :: j < k <= i ==> c[k] == 0) && (j > 0 ==> c[j] != 0)
  {
    if i == 0 then 0 else if c[i] != 0 then i else InUse(c, i - 1)
  }

  lemma InUseIs(c: seq<int>, i: nat, j: nat)
    requires 0 < j <= i < |c| && c[j] != 0 && forall k :: j < k <= i ==> c[k] == 0
    ensures InUse(c, i) == j
  {
  }

  // One round: the longest code below the limit becomes two that are a bit longer, one of the codes at the limit going.
  ghost function Round(c: seq<int>, limit: nat): (d: seq<int>)
    requires 1 <= limit < |c|
    ensures |d| == |c|
  {
    var i, b := InUse(c, limit - 1), c[limit := c[limit] - 1];
    b[i := b[i] - 1][i + 1 := b[i := b[i] - 1][i + 1] + 2]
  }

  ghost function Rounds(c: seq<int>, limit: nat, n: nat): (d: seq<int>)
    requires 1 <= limit < |c|
    ensures |d| == |c|
  {
    if n == 0 then c else Round(Rounds(c, limit, n - 1), limit)
  }

  // All codes longer than limit count as codes of that length.
  ghost function Cut(c: seq<int>, limit: nat): (d: seq<int>)
    requires 1 <= limit < |c|
    ensures |d| == |c|
  {
    c[limit := c[limit] + Codes(c, |c| - 1) - Codes(c, limit)]
  }

  // As many rounds as the codes that were cut off take too much room.
  ghost function LimitedTo(c: seq<int>, limit: nat): (d: seq<int>)
    requires 1 <= limit < |c|
    ensures |d| == |c|
  {
    var over := Room(Cut(c, limit), limit, limit) - Pow2(limit);
    Rounds(Cut(c, limit), limit, if over > 0 then over else 0)
  }

  // Counts for which the loop below can go on: more room is taken than there is, and there are enough codes
  // of the greatest length to make up for it.
  ghost predicate Limiting(c: seq<int>, limit: nat, n: int, total: int) {
    && 1 <= limit < |c| && Counts(c) && Codes(c, limit) == n && Room(c, limit, limit) == total >= Pow2(limit)
    && (total > Pow2(limit) ==> c[limit] > total - Pow2(limit))
  }

  // The total is never below the limit, and a 32-bit counter holds it.
  lemma TotalFits(c: seq<int>, limit: nat, n: int, total: int)
    requires Limiting(c, limit, n, total) && n <= Pow2(limit)
    ensures Pow2(limit) <= total < Pow2(limit + 1)
    ensures Counts(c) && 1 <= limit < |c| && Codes(c, limit) == n && Room(c, limit, limit) == total
  {
    if total > Pow2(limit) { LongestCount(c, limit); }
  }

  lemma {:induction false} LongestCount(c: seq<int>, k: nat)
    requires Counts(c) && k < |c|
    ensures 0 <= Codes(c, k) && (k > 0 ==> c[k] <= Codes(c, k))
  {
    if k > 0 { LongestCount(c, k - 1); }
  }

  // There is always a shorter code to lengthen.
  lemma ShorterCode(c: seq<int>, limit: nat, n: int, total: int)
    requires Limiting(c, limit, n, total) && total > Pow2(limit) && n <= Pow2(limit)
    ensures exists i :: 1 <= i < limit && c[i] > 0
  {
    if forall i :: 1 <= i < limit ==> c[i] <= 0 {
      assert forall i :: 1 <= i <= limit - 1 ==> c[i] == 0;
      OnlyLongest(c, limit - 1, limit);
    }
  }

  // Lengthens the longest of the codes below the limit that still exists, at the expense of one code at the limit.
  method LengthenOne(c: array<int>, limit: nat, ghost n: int, ghost total: int)
    requires c.Length == MAX_SUPPORTED + 1 && Limiting(c[..], limit, n, total) && total > Pow2(limit)
      && n <= Pow2(limit)
    modifies c
    ensures Limiting(c[..], limit, n, total - 1) && c[0] == old(c[0])
    ensures forall j :: limit < j < c.Length ==> c[j] == old(c[j])
    ensures c[..] == Round(old(c[..]), limit)
  {
    ghost var was := c[..];
    ShorterCode(was, limit, n, total);
    c[limit] := c[limit] - 1;
    var i := limit - 1;
    while i > 0 && c[i] == 0
      invariant 0 <= i < limit
      invariant forall j :: i < j < limit ==> was[j] == 0
    {
      i := i - 1;
    }
    if i > 0 {
      c[i] := c[i] - 1;
      c[i + 1] := c[i + 1] + 2;
    }
    assert i > 0;
    InUseIs(was, limit - 1, i);
    Lengthened(was, c[..], limit, i);
  }

  // Folds the longer codes into the greatest length allowed.
  method FoldLong(c: array<int>, limit: nat)
    requires c.Length == MAX_SUPPORTED + 1 && 1 <= limit < MAX_SUPPORTED && Counts(c[..])
    modifies c
    ensures c[..] == old(c[..])[limit := old(c[limit]) + Codes(old(c[..]), MAX_SUPPORTED) - Codes(old(c[..]), limit)]
  {
    ghost var was := c[..];
    var i := limit + 1;
    while i <= MAX_SUPPORTED
      invariant limit < i <= MAX_SUPPORTED + 1
      invariant c[..] == was[limit := was[limit] + Codes(was, i - 1) - Codes(was, limit)]
    {
      c[limit] := c[limit] + c[i];
      i := i + 1;
    }
  }

  lemma {:induction false} NoneLong(c: seq<int>, limit: nat, k: nat)
    requires limit <= k < |c| && forall i :: limit < i <= k ==> c[i] == 0
    ensures Codes(c, k) == Codes(c, limit)
  {
    if k > limit { NoneLong(c, limit, k - 1); }
  }

  lemma NoPower()
    ensures Pow2(0) == 1
  {
  }

  lemma Folded(was: seq<int>, now: seq<int>, limit: nat)
    requires |was| == MAX_SUPPORTED + 1 && 1 <= limit < MAX_SUPPORTED && Counts(was)
      && Room(was, MAX_SUPPORTED, MAX_SUPPORTED) == Pow2(MAX_SUPPORTED)
    requires now == was[limit := was[limit] + Codes(was, MAX_SUPPORTED) - Codes(was, limit)]
    ensures Limiting(now, limit, Codes(was, MAX_SUPPORTED), Room(now, limit, limit))
    ensures (forall i :: limit < i <= MAX_SUPPORTED ==> was[i] == 0) ==> now == was && Room(now, limit, limit) == Pow2(limit)
  {
    hide Codes, Room, Pow2;
    NoPower();
    if forall i :: limit < i <= MAX_SUPPORTED ==> was[i] == 0 { NoneLong(was, limit, MAX_SUPPORTED); }
    var n := Codes(was, MAX_SUPPORTED) - Codes(was, limit);
    LongCodes(was, limit, MAX_SUPPORTED, MAX_SUPPORTED);
    Overfull(was, limit, MAX_SUPPORTED);
    CodesChange(was, now, limit, limit);
    RoomChange(was, now, limit, limit, limit);
  }

  // The room taken, in units of 2^-limit.
  method TotalRoom(c: array<int>, limit: nat) returns (total: int)
    requires limit < c.Length && Counts(c[..])
    ensures total == Room(c[..], limit, limit)
  {
    total := 0;
    var i := limit;
    while i > 0
      invariant 0 <= i <= limit
      invariant total + Room(c[..], i, limit) == Room(c[..], limit, limit)
    {
      total := total + c[i] * Pow2(limit - i);
      i := i - 1;
    }
  }

  lemma FoldedCounts(c: seq<int>, limit: nat, n: int)
    requires |c| == MAX_SUPPORTED + 1 && limit < |c| && Limiting(c, limit, n, Room(c, limit, limit))
    ensures Counts(c)
  {
    hide Codes, Room, Pow2;
  }

  // Given the counts of a complete code of more than one symbol, makes them those of a complete code of as
  // many symbols with no code longer than limit. A code that is short enough is left as it is.
  method EnforceMaxCodeSize(c: array<int>, listLen: int, limit: nat)
    requires c.Length == MAX_SUPPORTED + 1 && 1 <= limit < MAX_SUPPORTED && Counts(c[..])
    requires listLen == Codes(c[..], MAX_SUPPORTED) <= Pow2(limit)
    requires listLen > 1 ==> Room(c[..], MAX_SUPPORTED, MAX_SUPPORTED) == Pow2(MAX_SUPPORTED)
    modifies c
    ensures Counts(c[..]) && c[0] == old(c[0])
    ensures listLen > 1 ==> Codes(c[..], limit) == listLen && Room(c[..], limit, limit) == Pow2(limit)
    ensures listLen > 1 ==> c[..] == LimitedTo(old(c[..]), limit)
    ensures listLen <= 1 || (forall i :: limit < i <= MAX_SUPPORTED ==> old(c[i]) == 0) ==> c[..] == old(c[..])
  {
    hide Codes, Room, Pow2, Limiting, Counts, Round;
    if listLen <= 1 { return; }
    ghost var was := c[..];
    FoldLong(c, limit);
    ghost var cut := c[..];
    assert cut == Cut(was, limit);
    Folded(was, c[..], limit);
    FoldedCounts(c[..], limit, listLen);
    var total := TotalRoom(c, limit);
    ghost var total0 := total;
    while total != Pow2(limit)
      invariant total <= total0 && c[..] == Rounds(cut, limit, total0 - total)
      invariant Limiting(c[..], limit, listLen, total) && c[0] == was[0]
      invariant (forall i :: limit < i <= MAX_SUPPORTED ==> was[i] == 0) ==> c[..] == was && total == Pow2(limit)
      decreases total - Pow2(limit)
    {
      TotalFits(c[..], limit, listLen, total);
      LengthenOne(c, limit, listLen, total);
      total := total - 1;
    }
    TotalFits(c[..], limit, listLen, total);
  }
}
