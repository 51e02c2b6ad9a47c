// The abstract state of the allocator: which blocks tile the buffer, which are free, which are used.
module Heap {

  const START: nat := 16     // sizeof(BufferHeader)
  const OVERHEAD: nat := 24  // sizeof(Block)
  const SLACK: nat := 100    // a block is split only if this much payload would remain

  // cells maps the offset of every block to its payload size; free and used are the two lists, head first.
  datatype State = State(cells: map<nat, nat>, free: seq<nat>, used: seq<nat>)

  function End(cells: map<nat, nat>, o: nat): nat
    requires o in cells
  {
    o + OVERHEAD + cells[o]
  }

  ghost predicate Tiled(cells: map<nat, nat>, hi: nat) {
    && START in cells
    && (forall o {:trigger End(cells, o)} :: o in cells ==>
          START <= o && (End(cells, o) == hi || (End(cells, o) < hi && End(cells, o) in cells)))
    && (forall o, p {:trigger End(cells, o), p in cells} :: o in cells && p in cells && o < p ==> End(cells, o) <= p)
  }

  ghost predicate Ascending(s: seq<nat>) { forall i, j :: 0 <= i < j < |s| ==> s[i] < s[j] }

  ghost predicate Distinct(s: seq<nat>) { forall i, j :: 0 <= i < j < |s| ==> s[i] != s[j] }

  // No free block ends where another free block begins.
  ghost predicate Coalesced(cells: map<nat, nat>, free: seq<nat>)
    requires forall o <- free :: o in cells
  {
    forall o, p {:trigger End(cells, o), p in free} :: o in free && p in free ==> End(cells, o) != p
  }

  ghost predicate Ok(h: State, hi: nat) {
    && Tiled(h.cells, hi)
    && Ascending(h.free)
    && Distinct(h.used)
    && (forall o :: o in h.cells <==> o in h.free || o in h.used)
    && (forall o <- h.free :: o !in h.used)
    && Coalesced(h.cells, h.free)
  }

  // --- the operations -------------------------------------------------------------------------

  function Initial(hi: nat): State
    requires hi >= START + OVERHEAD
  {
    State(map[START := hi - START - OVERHEAD], [START], [])
  }

  // Index of the first free block of at least n bytes, or |free|.
  function FirstFit(cells: map<nat, nat>, free: seq<nat>, n: nat): (k: nat)
    requires forall o <- free :: o in cells
    ensures k <= |free|
    ensures forall i :: 0 <= i < k ==> cells[free[i]] < n
    ensures k < |free| ==> cells[free[k]] >= n
  {
    if free == [] then 0 else if cells[free[0]] >= n then 0 else 1 + FirstFit(cells, free[1..], n)
  }

  lemma FitsAt(cells: map<nat, nat>, free: seq<nat>, n: nat, k: nat)
    requires (forall o <- free :: o in cells) && k < |free| && cells[free[k]] >= n
    requires forall i :: 0 <= i < k ==> cells[free[i]] < n
    ensures FirstFit(cells, free, n) == k
  {
  }

  // Number of leading entries below b.
  function Position(free: seq<nat>, b: nat): (k: nat)
    ensures k <= |free|
    ensures forall i :: 0 <= i < k ==> free[i] < b
    ensures k < |free| ==> free[k] >= b
  {
    if free == [] || free[0] >= b then 0 else 1 + Position(free[1..], b)
  }

  function Without(s: seq<nat>, b: nat): (r: seq<nat>)
    ensures forall x :: x in r <==> x in s && x != b
  {
    if s == [] then [] else if s[0] == b then Without(s[1..], b) else [s[0]] + Without(s[1..], b)
  }

  lemma WithoutDistinct(s: seq<nat>, b: nat)
    requires Distinct(s)
    ensures Distinct(Without(s, b))
    ensures b !in s ==> Without(s, b) == s
  {
    if s != [] {
      assert s[0] !in s[1..];
      WithoutDistinct(s[1..], b);
    }
  }

  predicate MergesLeft(cells: map<nat, nat>, free: seq<nat>, b: nat)
    requires b in cells && forall o <- free :: o in cells
  {
    var k := Position(free, b);
    k > 0 && End(cells, free[k - 1]) == b
  }

  predicate MergesRight(cells: map<nat, nat>, free: seq<nat>, b: nat)
    requires b in cells && forall o <- free :: o in cells
  {
    var k := Position(free, b);
    k < |free| && End(cells, b) == free[k]
  }

  // The block at p swallows the block that begins where p ends.
  function Join(cells: map<nat, nat>, p: nat): map<nat, nat>
    requires p in cells && End(cells, p) in cells
  {
    var q := End(cells, p);
    (cells - {q})[p := cells[p] + OVERHEAD + cells[q]]
  }

  // Sorted insertion of the detached block b, merged with whichever neighbours it touches.
  function Insert(cells: map<nat, nat>, free: seq<nat>, b: nat): (map<nat, nat>, seq<nat>)
    requires b in cells && forall o <- free :: o in cells
  {
    var k := Position(free, b);
    var left, right := MergesLeft(cells, free, b), MergesRight(cells, free, b);
    if left && right then
      (Join(Join(cells, b), free[k - 1]), free[..k] + free[k + 1..])
    else if left then
      (Join(cells, free[k - 1]), free)
    else if right then
      (Join(cells, b), free[..k] + [b] + free[k + 1..])
    else
      (cells, free[..k] + [b] + free[k..])
  }

  predicate Splits(h: State, n: nat)
    requires forall o <- h.free :: o in h.cells
  {
    var k := FirstFit(h.cells, h.free, n);
    k < |h.free| && h.cells[h.free[k]] >= n + OVERHEAD + SLACK
  }

  // The block at b keeps n bytes of payload, the rest becomes a new block.
  function Split(cells: map<nat, nat>, b: nat, n: nat): map<nat, nat>
    requires b in cells && cells[b] >= n + OVERHEAD
  {
    cells[b := n][b + OVERHEAD + n := cells[b] - n - OVERHEAD]
  }

  // First-fit allocation of n bytes; the caller has checked that some block fits.
  function Alloc(h: State, n: nat): State
    requires forall o <- h.free :: o in h.cells
    requires FirstFit(h.cells, h.free, n) < |h.free|
  {
    var k := FirstFit(h.cells, h.free, n);
    var b := h.free[k];
    var rest := h.free[..k] + h.free[k + 1..];
    if Splits(h, n) then
      State(Split(h.cells, b, n), h.free[k := b + OVERHEAD + n], [b] + h.used)
    else
      State(h.cells, rest, [b] + h.used)
  }

  function Free(h: State, b: nat): State
    requires b in h.cells && forall o <- h.free :: o in h.cells
  {
    var (cells, free) := Insert(h.cells, h.free, b);
    State(cells, free, Without(h.used, b))
  }

  // --- what every operation keeps --------------------------------------------------------------

  lemma InitialOk(hi: nat)
    requires hi >= START + OVERHEAD
    ensures Ok(Initial(hi), hi)
  {
  }

  // The state in which b is in neither list, which is how a block reaches the sorted insertion.
  ghost predicate Detached(cells: map<nat, nat>, free: seq<nat>, used: seq<nat>, b: nat, hi: nat) {
    && Tiled(cells, hi)
    && Ascending(free)
    && Distinct(used)
    && b !in free && b !in used
    && (forall o :: o in cells <==> o == b || o in free || o in used)
    && (forall o <- free :: o !in used)
    && Coalesced(cells, free)
  }

  lemma LeftNeighbour(cells: map<nat, nat>, free: seq<nat>, b: nat, hi: nat, o: nat)
    requires Tiled(cells, hi) && Ascending(free) && b in cells && forall x <- free :: x in cells
    requires o in free && End(cells, o) == b
    ensures Position(free, b) > 0 && o == free[Position(free, b) - 1]
  {
    var k := Position(free, b);
    var i :| 0 <= i < |free| && free[i] == o;
    assert i < k;
    assert free[k - 1] in free;
    assert End(cells, o) <= free[k - 1] || k - 1 <= i;
  }

  lemma RightNeighbour(cells: map<nat, nat>, free: seq<nat>, b: nat, hi: nat)
    requires Tiled(cells, hi) && Ascending(free) && b in cells && b !in free && forall x <- free :: x in cells
    requires End(cells, b) in free
    ensures Position(free, b) < |free| && End(cells, b) == free[Position(free, b)]
  {
    var k, o := Position(free, b), End(cells, b);
    var i :| 0 <= i < |free| && free[i] == o;
    assert k <= i;
    if k < i {
      assert free[k] in free;
      assert End(cells, b) <= free[k];
    }
  }

  // c is cells with the adjacent blocks p and q turned into one.
  ghost predicate Joined(cells: map<nat, nat>, c: map<nat, nat>, p: nat, q: nat) {
    && p in cells && q in cells && p < q && End(cells, p) == q
    && (forall o {:trigger o in c} :: o in c <==> o in cells && o != q)
    && End(c, p) == End(cells, q)
    && (forall o {:trigger End(c, o)} :: o in c && o != p ==> End(c, o) == End(cells, o))
  }

  lemma JoinedEnds(cells: map<nat, nat>, c: map<nat, nat>, p: nat, q: nat, hi: nat, o: nat)
    requires Tiled(cells, hi) && Joined(cells, c, p, q) && o in c
    ensures START <= o && (End(c, o) == hi || (End(c, o) < hi && End(c, o) in c))
    ensures o != p ==> End(c, o) != q
  {
    assert p < q;
    if o == p {
      assert End(c, o) == End(cells, q);
    } else {
      assert End(c, o) == End(cells, o);
      if o < p { assert End(cells, o) <= p; }
    }
  }

  lemma JoinedApart(cells: map<nat, nat>, c: map<nat, nat>, p: nat, q: nat, hi: nat, o: nat, x: nat)
    requires Tiled(cells, hi) && Joined(cells, c, p, q) && o in c && x in c && o < x
    ensures End(c, o) <= x
  {
    if o == p {
      assert End(cells, p) <= x;
      assert End(cells, q) <= x;
    } else {
      assert End(cells, o) <= x;
    }
  }

  lemma JoinedTiled(cells: map<nat, nat>, c: map<nat, nat>, p: nat, q: nat, hi: nat)
    requires Tiled(cells, hi) && Joined(cells, c, p, q)
    ensures Tiled(c, hi)
  {
    assert End(cells, p) == q;
    forall o | o in c
      ensures START <= o && (End(c, o) == hi || (End(c, o) < hi && End(c, o) in c))
    {
      JoinedEnds(cells, c, p, q, hi, o);
    }
    forall o, x | o in c && x in c && o < x
      ensures End(c, o) <= x
    {
      JoinedApart(cells, c, p, q, hi, o, x);
    }
  }

  lemma JoinTiled(cells: map<nat, nat>, p: nat, hi: nat)
    requires Tiled(cells, hi) && p in cells && End(cells, p) in cells
    ensures Joined(cells, Join(cells, p), p, End(cells, p))
    ensures Tiled(Join(cells, p), hi)
  {
    var c, q := Join(cells, p), End(cells, p);
    assert Joined(cells, c, p, q);
    JoinedTiled(cells, c, p, q, hi);
  }

  lemma JoinValue(cells: map<nat, nat>, p: nat, hi: nat)
    requires Tiled(cells, hi) && p in cells && End(cells, p) in cells
    ensures p in Join(cells, p) && Join(cells, p)[p] == cells[p] + (OVERHEAD + cells[End(cells, p)]) <= hi
  {
    var e := End(cells, End(cells, p));
  }

  lemma JoinOther(cells: map<nat, nat>, p: nat)
    requires p in cells && End(cells, p) in cells
    ensures forall o <- cells :: o != End(cells, p) ==> o in Join(cells, p) && (o != p ==> Join(cells, p)[o] == cells[o])
  {
  }

  // Dropping, replacing and inserting list entries, seen as sets.
  lemma Dropped(s: seq<nat>, k: nat)
    requires Ascending(s) && k < |s|
    ensures Ascending(s[..k] + s[k + 1..])
    ensures forall x :: x in s[..k] + s[k + 1..] <==> x in s && x != s[k]
  {
    var r := s[..k] + s[k + 1..];
    forall x | x in s && x != s[k]
      ensures x in r
    {
      var i :| 0 <= i < |s| && s[i] == x;
      assert x == r[if i < k then i else i - 1];
    }
  }

  // Where Position cuts an ascending list.
  lemma Cut(s: seq<nat>, b: nat)
    requires Ascending(s) && b !in s
    ensures forall i :: Position(s, b) <= i < |s| ==> b < s[i]
  {
    var k := Position(s, b);
    if k < |s| { assert s[k] in s; }
  }

  lemma Added(s: seq<nat>, b: nat, k: nat)
    requires Ascending(s) && k <= |s|
    requires (forall i :: 0 <= i < k ==> s[i] < b) && (forall i :: k <= i < |s| ==> b < s[i])
    ensures Ascending(s[..k] + [b] + s[k..])
    ensures forall x :: x in s[..k] + [b] + s[k..] <==> x in s || x == b
  {
    var t := s[..k] + s[k..];
    assert t == s;
  }

  lemma Replaced(s: seq<nat>, b: nat, k: nat)
    requires Ascending(s) && k < |s|
    requires (forall i :: 0 <= i < k ==> s[i] < b) && (forall i :: k <= i < |s| ==> b < s[i])
    ensures Ascending(s[..k] + [b] + s[k + 1..])
    ensures forall x :: x in s[..k] + [b] + s[k + 1..] <==> (x in s && x != s[k]) || x == b
  {
    Dropped(s, k);
    var t := s[..k] + s[k + 1..];
    Added(t, b, k);
    assert t[..k] == s[..k] && t[k..] == s[k + 1..];
  }

  lemma InsertApart(cells: map<nat, nat>, free: seq<nat>, used: seq<nat>, b: nat, hi: nat)
    requires Detached(cells, free, used, b, hi)
    requires !MergesLeft(cells, free, b) && !MergesRight(cells, free, b)
    ensures var (c, f) := Insert(cells, free, b); Ok(State(c, f, used), hi)
  {
    var (c, f) := Insert(cells, free, b);
    Cut(free, b);
    Added(free, b, Position(free, b));
    if End(cells, b) in free { RightNeighbour(cells, free, b, hi); }
    NoLeft(cells, free, b, hi);
    ApartCoalesced(cells, free, f, b);
  }

  lemma ApartCoalesced(cells: map<nat, nat>, free: seq<nat>, f: seq<nat>, b: nat)
    requires b in cells && forall x <- free :: x in cells
    requires Coalesced(cells, free) && End(cells, b) !in free
    requires forall o <- free :: End(cells, o) != b
    requires forall x :: x in f <==> x in free || x == b
    ensures Coalesced(cells, f)
  {
  }

  lemma InsertLeft(cells: map<nat, nat>, free: seq<nat>, used: seq<nat>, b: nat, hi: nat)
    requires Detached(cells, free, used, b, hi)
    requires MergesLeft(cells, free, b) && !MergesRight(cells, free, b)
    ensures var (c, f) := Insert(cells, free, b); Ok(State(c, f, used), hi)
  {
    var p := free[Position(free, b) - 1];
    var c := Join(cells, p);
    JoinTiled(cells, p, hi);
    if End(cells, b) in free { RightNeighbour(cells, free, b, hi); }
    LeftCoalesced(cells, c, free, p, b);
  }

  lemma LeftCoalesced(cells: map<nat, nat>, c: map<nat, nat>, free: seq<nat>, p: nat, b: nat)
    requires Joined(cells, c, p, b) && p in free && b !in free && forall x <- free :: x in cells
    requires Coalesced(cells, free) && End(cells, b) !in free
    ensures (forall o <- free :: o in c) && Coalesced(c, free)
  {
  }

  lemma InsertRight(cells: map<nat, nat>, free: seq<nat>, used: seq<nat>, b: nat, hi: nat)
    requires Detached(cells, free, used, b, hi)
    requires !MergesLeft(cells, free, b) && MergesRight(cells, free, b)
    ensures var (c, f) := Insert(cells, free, b); Ok(State(c, f, used), hi)
  {
    hide Tiled, Ascending, Distinct, Coalesced, Join;
    var k := Position(free, b);
    var n := free[k];
    assert n in free;
    var (c, f) := Insert(cells, free, b);
    JoinTiled(cells, b, hi);
    Cut(free, b);
    Replaced(free, b, k);
    NoLeft(cells, free, b, hi);
    RightCoalesced(cells, c, free, f, b, n, hi);
  }

  // Without a left merge, no free block ends at b.
  lemma NoLeft(cells: map<nat, nat>, free: seq<nat>, b: nat, hi: nat)
    requires Tiled(cells, hi) && Ascending(free) && b in cells && b !in free && forall x <- free :: x in cells
    requires !MergesLeft(cells, free, b)
    ensures forall o <- free :: End(cells, o) != b
  {
    forall o | o in free && End(cells, o) == b
      ensures false
    {
      LeftNeighbour(cells, free, b, hi, o);
    }
  }

  lemma RightCoalesced(cells: map<nat, nat>, c: map<nat, nat>, free: seq<nat>, f: seq<nat>, b: nat, n: nat, hi: nat)
    requires Joined(cells, c, b, n) && n in free && b !in free && forall x <- free :: x in cells
    requires Coalesced(cells, free) && forall o <- free :: End(cells, o) != b
    requires forall x :: x in f <==> (x in free && x != n) || x == b
    ensures (forall o <- f :: o in c) && Coalesced(c, f)
  {
  }

  lemma InsertBoth(cells: map<nat, nat>, free: seq<nat>, used: seq<nat>, b: nat, hi: nat)
    requires Detached(cells, free, used, b, hi)
    requires MergesLeft(cells, free, b) && MergesRight(cells, free, b)
    ensures var (c, f) := Insert(cells, free, b); Ok(State(c, f, used), hi)
  {
    var k := Position(free, b);
    var p, n := free[k - 1], free[k];
    var c1 := Join(cells, b);
    JoinTiled(cells, b, hi);
    assert p in c1 && End(c1, p) == b;
    var c2 := Join(c1, p);
    JoinTiled(c1, p, hi);
    Dropped(free, k);
    BothCoalesced(cells, c1, c2, free, free[..k] + free[k + 1..], p, b, n);
  }

  lemma BothCoalesced(cells: map<nat, nat>, c1: map<nat, nat>, c2: map<nat, nat>, free: seq<nat>, f: seq<nat>, p: nat,
      b: nat,
      n: nat)
    requires Joined(cells, c1, b, n) && Joined(c1, c2, p, b)
    requires p in free && n in free && b !in free && forall x <- free :: x in cells
    requires Coalesced(cells, free)
    requires forall x :: x in f <==> x in free && x != n
    ensures (forall o <- f :: o in c2) && Coalesced(c2, f)
  {
    assert End(c2, p) == End(c1, b) == End(cells, n);
  }

  // Sorted insertion with merging re-establishes every list and tiling property.
  lemma InsertOk(cells: map<nat, nat>, free: seq<nat>, used: seq<nat>, b: nat, hi: nat)
    requires Detached(cells, free, used, b, hi)
    ensures var (c, f) := Insert(cells, free, b); Ok(State(c, f, used), hi)
  {
    if MergesLeft(cells, free, b) {
      if MergesRight(cells, free, b) { InsertBoth(cells, free, used, b, hi); }
          else { InsertLeft(cells, free, used, b, hi); }
    } else {
      if MergesRight(cells, free, b) { InsertRight(cells, free, used, b, hi); }
          else { InsertApart(cells, free, used, b, hi); }
    }
  }

  // Releasing b keeps everything well formed and no other live block moves or changes size.
  lemma FreeOk(h: State, b: nat, hi: nat)
    requires Ok(h, hi) && b in h.used
    ensures Ok(Free(h, b), hi)
    ensures forall o :: o in Free(h, b).used <==> o in h.used && o != b
    ensures forall o <- Free(h, b).used :: Free(h, b).cells[o] == h.cells[o]
  {
    WithoutDistinct(h.used, b);
    InsertOk(h.cells, h.free, Without(h.used, b), b, hi);
  }

  lemma Prepended(b: nat, used: seq<nat>)
    requires Distinct(used) && b !in used
    ensures Distinct([b] + used)
    ensures forall x :: x in [b] + used <==> x == b || x in used
  {
  }

  lemma AllocWhole(h: State, n: nat, hi: nat)
    requires Ok(h, hi) && FirstFit(h.cells, h.free, n) < |h.free| && !Splits(h, n)
    ensures Ok(Alloc(h, n), hi)
  {
    var k := FirstFit(h.cells, h.free, n);
    assert h.free[k] in h.free;
    Dropped(h.free, k);
    Prepended(h.free[k], h.used);
    DroppedCoalesced(h.cells, h.free, h.free[..k] + h.free[k + 1..]);
  }

  lemma DroppedCoalesced(cells: map<nat, nat>, free: seq<nat>, f: seq<nat>)
    requires (forall o <- free :: o in cells) && Coalesced(cells, free)
    requires forall o <- f :: o in free
    ensures (forall o <- f :: o in cells) && Coalesced(cells, f)
  {
  }

  // Splitting is the reverse of joining: cells is c with b and the split-off s made one again.
  lemma SplitJoined(cells: map<nat, nat>, b: nat, n: nat, hi: nat)
    requires Tiled(cells, hi) && b in cells && cells[b] >= n + OVERHEAD
    ensures var s := b + OVERHEAD + n;
      s !in cells && Joined(Split(cells, b, n), cells, b, s)
  {
    var s := b + OVERHEAD + n;
    assert b < s < End(cells, b);
  }

  lemma SplitTiled(cells: map<nat, nat>, c: map<nat, nat>, b: nat, s: nat, hi: nat)
    requires Tiled(cells, hi) && Joined(c, cells, b, s)
    ensures Tiled(c, hi)
  {
    forall o | o in c
      ensures START <= o && (End(c, o) == hi || (End(c, o) < hi && End(c, o) in c))
    {
      var e := if o == s then End(cells, b) else if o == b then 0 else End(cells, o);
    }
    forall o, x | o in c && x in c && o < x
      ensures End(c, o) <= x
    {
      SplitApart(cells, c, b, s, hi, o, x);
    }
  }

  lemma SplitApart(cells: map<nat, nat>, c: map<nat, nat>, b: nat, s: nat, hi: nat, o: nat, x: nat)
    requires Tiled(cells, hi) && Joined(c, cells, b, s) && o in c && x in c && o < x
    ensures End(c, o) <= x
  {
    assert o in cells || o == s;
    assert x in cells || x == s;
    var e := End(cells, b);
    if o == s {
      assert e <= x;
    } else if x == s {
      assert End(cells, o) <= b || o == b || e <= o;
    } else {
      assert End(cells, o) <= x;
    }
  }

  lemma SplitLists(cells: map<nat, nat>, free: seq<nat>, k: nat, s: nat)
    requires Ascending(free) && (forall x <- free :: x in cells) && k < |free|
    requires free[k] < s < End(cells, free[k])
    requires forall i :: k < i < |free| ==> End(cells, free[k]) <= free[i]
    ensures Ascending(free[k := s])
    ensures forall x :: x in free[k := s] <==> (x in free && x != free[k]) || x == s
  {
    Dropped(free, k);
    var t := free[..k] + free[k + 1..];
    Added(t, s, k);
    assert free[k := s] == t[..k] + [s] + t[k..];
  }

  lemma SplitCoalesced(cells: map<nat, nat>, c: map<nat, nat>, free: seq<nat>, f: seq<nat>, b: nat, s: nat)
    requires (forall o <- free :: o in cells) && Coalesced(cells, free) && b in free
    requires Joined(c, cells, b, s) && forall o :: o in cells ==> End(cells, o) != s
    requires forall x :: x in f <==> (x in free && x != b) || x == s
    ensures (forall o <- f :: o in c) && Coalesced(c, f)
  {
  }

  lemma SplitMembers(h: State, c: map<nat, nat>, f: seq<nat>, u: seq<nat>, b: nat, s: nat)
    requires (forall o :: o in h.cells <==> o in h.free || o in h.used) && forall o <- h.free :: o !in h.used
    requires b in h.free && s !in h.cells
    requires Joined(c, h.cells, b, s)
    requires forall x :: x in f <==> (x in h.free && x != b) || x == s
    requires forall x :: x in u <==> x in h.used || x == b
    ensures (forall o :: o in c <==> o in f || o in u) && forall o <- f :: o !in u
  {
  }

  lemma SplitFacts(h: State, c: map<nat, nat>, k: nat, s: nat, hi: nat)
    requires Ok(h, hi) && k < |h.free| && s !in h.cells && Joined(c, h.cells, h.free[k], s)
    ensures h.free[k] in h.free && h.free[k] < s < End(h.cells, h.free[k])
    ensures forall i :: k < i < |h.free| ==> End(h.cells, h.free[k]) <= h.free[i]
    ensures forall o :: o in h.cells ==> End(h.cells, o) != s
  {
    assert h.free[k] in h.free;
    assert s < End(c, s) == End(h.cells, h.free[k]);
    assert forall i :: k < i < |h.free| ==> h.free[i] in h.free;
  }

  lemma SplitOk(h: State, c: map<nat, nat>, k: nat, s: nat, hi: nat)
    requires Ok(h, hi) && k < |h.free| && s !in h.cells && Joined(c, h.cells, h.free[k], s)
    ensures Ok(State(c, h.free[k := s], [h.free[k]] + h.used), hi)
  {
    hide Tiled, Ascending, Distinct, Coalesced, Joined;
    var b := h.free[k];
    SplitFacts(h, c, k, s, hi);
    SplitTiled(h.cells, c, b, s, hi);
    SplitLists(h.cells, h.free, k, s);
    Prepended(b, h.used);
    SplitMembers(h, c, h.free[k := s], [b] + h.used, b, s);
    SplitCoalesced(h.cells, c, h.free, h.free[k := s], b, s);
  }

  lemma AllocSplit(h: State, n: nat, hi: nat)
    requires Ok(h, hi) && Splits(h, n)
    ensures Ok(Alloc(h, n), hi)
    ensures h.free[FirstFit(h.cells, h.free, n)] + OVERHEAD + n !in h.cells
  {
    var k := FirstFit(h.cells, h.free, n);
    var b := h.free[k];
    assert b in h.free;
    var s, c := b + OVERHEAD + n, Split(h.cells, b, n);
    SplitJoined(h.cells, b, n, hi);
    assert Alloc(h, n) == State(c, h.free[k := s], [b] + h.used);
    SplitOk(h, c, k, s, hi);
  }

  lemma AllocOk(h: State, n: nat, hi: nat)
    requires Ok(h, hi) && FirstFit(h.cells, h.free, n) < |h.free|
    ensures Ok(Alloc(h, n), hi)
    ensures forall o <- h.used :: Alloc(h, n).cells[o] == h.cells[o]
  {
    if Splits(h, n) { AllocSplit(h, n, hi); } else { AllocWhole(h, n, hi); }
  }

  lemma SplitRest(h: State, c: map<nat, nat>, k: nat, s: nat, hi: nat)
    requires Ok(h, hi) && k < |h.free| && s !in h.cells && Joined(c, h.cells, h.free[k], s)
    ensures var rest := h.free[..k] + h.free[k + 1..];
      && Ascending(rest) && s !in rest && s in c && forall o <- rest :: o in c && c[o] == h.cells[o]
  {
    assert h.free[k] in h.free;
    Dropped(h.free, k);
    var rest := h.free[..k] + h.free[k + 1..];
    forall o | o in rest
      ensures o in c && c[o] == h.cells[o]
    {
      assert o in h.cells && End(h.cells, o) == End(c, o);
    }
  }

  lemma SplitNeighbours(h: State, c: map<nat, nat>, k: nat, s: nat, hi: nat)
    requires Ok(h, hi) && k < |h.free| && s !in h.cells && Joined(c, h.cells, h.free[k], s)
    ensures var rest := h.free[..k] + h.free[k + 1..];
      && (forall o <- rest :: o in c && End(c, o) != s && End(c, s) != o)
  {
    SplitRest(h, c, k, s, hi);
    SplitFacts(h, c, k, s, hi);
    var rest := h.free[..k] + h.free[k + 1..];
    forall o | o in rest
      ensures End(c, o) != s && End(c, s) != o
    {
      assert o in h.free && End(h.cells, o) == End(c, o);
      assert End(c, s) == End(h.cells, h.free[k]);
    }
  }

  lemma InsertAlone(c: map<nat, nat>, rest: seq<nat>, s: nat)
    requires s in c && forall o <- rest :: o in c && End(c, o) != s && End(c, s) != o
    ensures Insert(c, rest, s) == (c, rest[..Position(rest, s)] + [s] + rest[Position(rest, s)..])
  {
    var k := Position(rest, s);
    assert (k > 0 ==> rest[k - 1] in rest) && (k < |rest| ==> rest[k] in rest);
  }

  // The split-off block goes back exactly where its parent was and touches no free neighbour.
  lemma SplitInsert(h: State, c: map<nat, nat>, k: nat, s: nat, hi: nat)
    requires Ok(h, hi) && k < |h.free| && s !in h.cells && Joined(c, h.cells, h.free[k], s)
    ensures var rest := h.free[..k] + h.free[k + 1..];
      && Ascending(rest) && s !in rest && s in c && (forall o <- rest :: o in c && c[o] == h.cells[o])
      && Insert(c, rest, s) == (c, h.free[k := s])
  {
    hide Tiled, Joined, Coalesced, Distinct, Insert, Position, End;
    var rest := h.free[..k] + h.free[k + 1..];
    SplitRest(h, c, k, s, hi);
    SplitFacts(h, c, k, s, hi);
    SplitNeighbours(h, c, k, s, hi);
    InsertAlone(c, rest, s);
    SplitBelow(h, k, s);
    RestPosition(h.free, k, s);
    assert rest[..k] + [s] + rest[k..] == h.free[k := s];
  }

  lemma SplitBelow(h: State, k: nat, s: nat)
    requires k < |h.free| && h.free[k] in h.cells && s < End(h.cells, h.free[k])
    requires forall i :: k < i < |h.free| ==> End(h.cells, h.free[k]) <= h.free[i]
    ensures forall i :: k < i < |h.free| ==> s < h.free[i]
  {
  }

  lemma RestPosition(free: seq<nat>, k: nat, s: nat)
    requires Ascending(free) && k < |free| && free[k] < s && forall i :: k < i < |free| ==> s < free[i]
    ensures Position(free[..k] + free[k + 1..], s) == k
  {
    var rest := free[..k] + free[k + 1..];
    var p := Position(rest, s);
    assert forall i :: 0 <= i < k ==> rest[i] == free[i];
    assert k < |rest| ==> rest[k] == free[k + 1];
  }

  // What taking n bytes from the lowest free block that fits makes of heap h, if that is b. A block of less than
  // n + 124 bytes goes out whole: the tiling stays, and the free list just loses b. Of a larger one b keeps n bytes,
  // and the rest, a free block right behind it, takes its place in the list.
  ghost predicate TakenFor(h: State, g: State, n: nat, b: nat) {
    && b in h.free && b in h.cells && h.cells[b] >= n && g.used == [b] + h.used
    && (forall o <- h.free :: o in h.cells && h.cells[o] >= n ==> b <= o)
    && exists k :: 0 <= k < |h.free| && h.free[k] == b &&
        var size, rest := h.cells[b], b + 24 + n;
        if size < n + 124 then g.cells == h.cells && g.free == h.free[..k] + h.free[k + 1..]
        else rest !in h.cells && g.cells == h.cells[b := n][rest := size - n - 24] && g.free == h.free[k := rest]
  }

  lemma FirstLowest(h: State, n: nat, k: nat)
    requires Ascending(h.free) && (forall o <- h.free :: o in h.cells) && k == FirstFit(h.cells, h.free, n) < |h.free|
    ensures forall o <- h.free :: h.cells[o] >= n ==> h.free[k] <= o
  {
    forall o | o in h.free && h.cells[o] >= n
      ensures h.free[k] <= o
    {
      var i :| 0 <= i < |h.free| && h.free[i] == o;
      assert k <= i;
    }
  }

  // The shape of the heap after an allocation.
  lemma AllocShape(h: State, n: nat, k: nat)
    requires (forall o <- h.free :: o in h.cells) && k == FirstFit(h.cells, h.free, n) < |h.free|
    ensures var g, b, rest := Alloc(h, n), h.free[k], h.free[k] + 24 + n;
      && g.used == [b] + h.used && h.cells[b] >= n
      && if h.cells[b] < n + 124 then g.cells == h.cells && g.free == h.free[..k] + h.free[k + 1..]
         else g.cells == h.cells[b := n][rest := h.cells[b] - n - 24] && g.free == h.free[k := rest]
  {
  }

  lemma NewBlock(h: State, n: nat, b: nat, hi: nat)
    requires Ok(h, hi) && b in h.cells && h.cells[b] >= n + 24
    ensures b + 24 + n !in h.cells
  {
    hide Coalesced, Ascending, Distinct;
    SplitJoined(h.cells, b, n, hi);
  }

  lemma AllocTakes(h: State, n: nat, hi: nat)
    requires Ok(h, hi) && (forall o <- h.free :: o in h.cells) && FirstFit(h.cells, h.free, n) < |h.free|
    ensures Alloc(h, n).used != [] && TakenFor(h, Alloc(h, n), n, Alloc(h, n).used[0])
  {
    hide Tiled, Coalesced, Distinct, Ascending, Alloc, FirstFit, Splits;
    var k := FirstFit(h.cells, h.free, n);
    var b := h.free[k];
    assert b in h.free;
    FirstLowest(h, n, k);
    AllocShape(h, n, k);
    if h.cells[b] >= n + 124 { NewBlock(h, n, b, hi); }
    assert h.free[k] == b;
  }

  // --- what the invariant means ---------------------------------------------------------------

  // The payload sizes of the blocks a client holds.
  ghost predicate SameLive(h: State, g: State)
    requires (forall o <- h.used :: o in h.cells) && forall o <- g.used :: o in g.cells
  {
    && (forall o :: o in h.used <==> o in g.used)
    && (forall o <- h.used :: h.cells[o] == g.cells[o])
  }

  // Two well-formed heaps with the same live blocks agree on the block at a common address.
  lemma SameEnd(h: State, g: State, hi: nat, a: nat)
    requires Ok(h, hi) && Ok(g, hi) && SameLive(h, g) && a in h.cells && a in g.cells
    ensures h.cells[a] == g.cells[a]
  {
    if a !in h.used {
      NoEarlierEnd(h, g, hi, a);
      NoEarlierEnd(g, h, hi, a);
    }
  }

  // A free block of g cannot stop short of where h's free block at the same address ends.
  lemma NoEarlierEnd(h: State, g: State, hi: nat, a: nat)
    requires Ok(h, hi) && Ok(g, hi) && SameLive(h, g) && a in h.free && a in g.free
    ensures End(h.cells, a) <= End(g.cells, a)
  {
    var e := End(g.cells, a);
    assert e == hi || e in g.used;
    assert e !in h.cells || End(h.cells, a) <= e;
    assert End(h.cells, a) <= hi;
  }

  lemma {:induction false} SameFrom(h: State, g: State, hi: nat, a: nat)
    requires Ok(h, hi) && Ok(g, hi) && SameLive(h, g)
    requires a == hi || (a in h.cells && a in g.cells)
    ensures forall o :: a <= o ==> (o in h.cells <==> o in g.cells) && (o in h.cells ==> h.cells[o] == g.cells[o])
    decreases hi - a
  {
    if a == hi {
      Bounds(h.cells, hi);
      Bounds(g.cells, hi);
    } else {
      SameEnd(h, g, hi, a);
      var e := End(h.cells, a);
      assert e == End(g.cells, a);
      SameFrom(h, g, hi, e);
    }
  }

  lemma Bounds(cells: map<nat, nat>, hi: nat)
    requires Tiled(cells, hi)
    ensures forall o <- cells :: START <= o && o + OVERHEAD + cells[o] <= hi
  {
    forall o | o in cells
      ensures START <= o && o + OVERHEAD + cells[o] <= hi
    {
      var e := End(cells, o);
    }
  }

  lemma NoMembers(s: seq<nat>)
    ensures (forall x :: x !in s) ==> s == []
  {
    if s != [] { assert s[0] in s; }
  }

  lemma {:induction false} AscendingUnique(s: seq<nat>, t: seq<nat>)
    requires Ascending(s) && Ascending(t) && forall x :: x in s <==> x in t
    ensures s == t
  {
    NoMembers(s);
    NoMembers(t);
    if s != [] && t != [] {
      assert s[0] in t && t[0] in s;
      assert s[0] == t[0];
      assert forall x :: x in s[1..] <==> x in s && x != s[0];
      assert forall x :: x in t[1..] <==> x in t && x != t[0];
      AscendingUnique(s[1..], t[1..]);
    }
  }

  // The free list and the tiling are determined by the live blocks alone.
  lemma Canonical(h: State, g: State, hi: nat)
    requires Ok(h, hi) && Ok(g, hi) && SameLive(h, g)
    ensures h.cells == g.cells && h.free == g.free
  {
    SameFrom(h, g, hi, START);
    Bounds(h.cells, hi);
    Bounds(g.cells, hi);
    assert forall o :: o in h.cells <==> o in g.cells;
    AscendingUnique(h.free, g.free);
  }

  // With nothing live, the buffer is one free block again.
  lemma EmptyIsInitial(h: State, hi: nat)
    requires Ok(h, hi) && h.used == [] && hi >= START + OVERHEAD
    ensures h == Initial(hi)
  {
    InitialOk(hi);
    Canonical(h, Initial(hi), hi);
  }

  // Every free block but the one at the very end is followed by a used block.
  lemma FewFree(h: State, hi: nat)
    requires Ok(h, hi)
    ensures |h.free| <= |h.used| + 1
  {
    if h.free != [] {
      var n := |h.free| - 1;
      forall i | 0 <= i < n
        ensures End(h.cells, h.free[i]) in h.used
      {
        assert h.free[i] in h.free && h.free[i + 1] in h.free;
        assert End(h.cells, h.free[i]) <= h.free[i + 1] < End(h.cells, h.free[i + 1]);
      }
      var ends := seq(n, i requires 0 <= i < n => assert h.free[i] in h.free; End(h.cells, h.free[i]));
      assert Distinct(ends) by {
        forall i, j | 0 <= i < j < n
          ensures ends[i] != ends[j]
        {
          assert h.free[i] in h.free && h.free[j] in h.free;
          assert End(h.cells, h.free[i]) <= h.free[j];
        }
      }
      Pigeonhole(ends, h.used);
    }
  }

  lemma {:induction false} Pigeonhole(s: seq<nat>, t: seq<nat>)
    requires Distinct(s) && forall x <- s :: x in t
    ensures |s| <= |t|
  {
    if s != [] {
      assert s[0] in t;
      var i :| 0 <= i < |t| && t[i] == s[0];
      var t' := t[..i] + t[i + 1..];
      forall x | x in s[1..]
        ensures x in t'
      {
        assert x in s && x in t;
        var j :| 0 <= j < |t| && t[j] == x;
        assert x != s[0];
        assert x == t'[if j < i then j else j - 1];
      }
      Pigeonhole(s[1..], t');
    }
  }

  // --- runs ------------------------------------------------------------------------------------

  datatype Op = Allocate(n: nat) | Release(b: nat)

  predicate Enabled(h: State, op: Op) {
    match op
    case Allocate(_) => true
    case Release(b) => b in h.used
  }

  // An allocation that finds no block changes nothing.
  function Step(h: State, op: Op): State
    requires (forall o <- h.free :: o in h.cells) && (forall o <- h.used :: o in h.cells) && Enabled(h, op)
  {
    match op
    case Allocate(n) => if FirstFit(h.cells, h.free, n) < |h.free| then Alloc(h, n) else h
    case Release(b) => Free(h, b)
  }

  // An allocation takes the lowest free block that fits, or changes nothing if none fits. Of a block of at least
  // 124 bytes more than it needs it leaves a free block of at least 100 bytes.
  lemma AllocateFirstFit(h: State, n: nat, hi: nat) returns (b: nat)
    requires Ok(h, hi)
    ensures (forall o <- h.free :: o in h.cells) && forall o <- h.used :: o in h.cells
    ensures var g := Step(h, Allocate(n));
      if forall o <- h.free :: h.cells[o] < n then g == h
      else
        && b in h.free && h.cells[b] >= n && (forall o <- h.free :: h.cells[o] >= n ==> b <= o)
        && g.used == [b] + h.used && b in g.cells && b !in g.free
        && if h.cells[b] < n + 124 then g.cells == h.cells && forall o :: o in g.free <==> (o in h.free && o != b)
           else
             var rest := b + 24 + n;
             && rest !in h.cells && h.cells[b] - n - 24 >= 100
             && g.cells == h.cells[b := n][rest := h.cells[b] - n - 24]
             && forall o :: o in g.free <==> (o in h.free && o != b) || o == rest
  {
    hide Tiled, Coalesced, Distinct, Ascending, Alloc, FirstFit, TakenFor;
    NoneOrFirst(h, n);
    b := 0;
    if FirstFit(h.cells, h.free, n) < |h.free| {
      var g := Alloc(h, n);
      AllocTakes(h, n, hi);
      b := g.used[0];
      AllocOk(h, n, hi);
      TakenMeans(h, g, n, b, hi);
    }
  }

  // What an allocation makes of the tiling and of the free list, without the order of the list.
  lemma TakenMeans(h: State, g: State, n: nat, b: nat, hi: nat)
    requires Ok(h, hi) && TakenFor(h, g, n, b)
    ensures b in h.free && b in h.cells && h.cells[b] >= n
      && (forall o <- h.free :: o in h.cells && h.cells[o] >= n ==> b <= o)
    ensures g.used == [b] + h.used && b in g.cells && b !in g.free
    ensures
      if h.cells[b] < n + 124 then g.cells == h.cells && forall o :: o in g.free <==> (o in h.free && o != b)
      else
        var rest := b + 24 + n;
        && rest !in h.cells && h.cells[b] - n - 24 >= 100
        && g.cells == h.cells[b := n][rest := h.cells[b] - n - 24]
        && forall o :: o in g.free <==> (o in h.free && o != b) || o == rest
  {
    hide Tiled, Coalesced, Distinct, Ascending;
    FreeAfter(h, g, n, b, hi);
  }

  lemma NoneOrFirst(h: State, n: nat)
    requires forall o <- h.free :: o in h.cells
    ensures FirstFit(h.cells, h.free, n) == |h.free| <==> forall o <- h.free :: h.cells[o] < n
  {
    var k := FirstFit(h.cells, h.free, n);
    if k < |h.free| { assert h.free[k] in h.free; }
  }

  lemma FreeAfter(h: State, g: State, n: nat, b: nat, hi: nat)
    requires Ok(h, hi) && TakenFor(h, g, n, b)
    ensures forall o :: o in g.free <==> (o in h.free && o != b) || (h.cells[b] >= n + 124 && o == b + 24 + n)
  {
    var k :| 0 <= k < |h.free| && h.free[k] == b &&
      g.free == if h.cells[b] < n + 124 then h.free[..k] + h.free[k + 1..] else h.free[k := b + 24 + n];
    Dropped(h.free, k);
    ReplacedMembers(h.free, k, b + 24 + n, h.free[k := b + 24 + n]);
  }

  lemma ReplacedMembers(s: seq<nat>, k: nat, x: nat, r: seq<nat>)
    requires k < |s| && r == s[k := x]
    ensures forall o :: o in r <==> o in s[..k] + s[k + 1..] || o == x
  {
    assert r == s[..k] + [x] + s[k + 1..];
  }

  // A run: consecutive states are related by enabled operations, starting from the fresh buffer.
  ghost predicate Run(states: seq<State>, ops: seq<Op>, hi: nat) {
    && |states| == |ops| + 1
    && hi >= START + OVERHEAD && states[0] == Initial(hi)
    && forall i :: 0 <= i < |ops| ==>
        && (forall o <- states[i].free :: o in states[i].cells) && (forall o <- states[i].used :: o in states[i].cells)
        && Enabled(states[i], ops[i]) && states[i + 1] == Step(states[i], ops[i])
  }

  lemma {:induction false} RunOk(states: seq<State>, ops: seq<Op>, hi: nat, i: nat)
    requires Run(states, ops, hi) && i < |states|
    ensures Ok(states[i], hi)
  {
    if i == 0 {
      InitialOk(hi);
    } else {
      RunOk(states, ops, hi, i - 1);
      var h, op := states[i - 1], ops[i - 1];
      match op
      case Allocate(n) => if FirstFit(h.cells, h.free, n) < |h.free| { AllocOk(h, n, hi); }
      case Release(b) => FreeOk(h, b, hi);
    }
  }

  // Releasing a whole list of blocks, in the order given.
  function FreeAll(h: State, bs: seq<nat>, hi: nat): (g: State)
    requires Ok(h, hi) && Distinct(bs) && forall b <- bs :: b in h.used
    ensures Ok(g, hi)
    ensures forall o :: o in g.used <==> o in h.used && o !in bs
    ensures forall o <- g.used :: g.cells[o] == h.cells[o]
    decreases |bs|
  {
    if bs == [] then h
    else
      FreeOk(h, bs[0], hi);
      assert forall b <- bs[1..] :: b in bs && b != bs[0];
      FreeAll(Free(h, bs[0]), bs[1..], hi)
  }

  // The order of releases does not matter.
  lemma FreeOrder(h: State, bs: seq<nat>, cs: seq<nat>, hi: nat)
    requires Ok(h, hi) && Distinct(bs) && Distinct(cs)
    requires (forall b <- bs :: b in h.used) && forall b :: b in bs <==> b in cs
    ensures FreeAll(h, bs, hi).cells == FreeAll(h, cs, hi).cells
    ensures FreeAll(h, bs, hi).free == FreeAll(h, cs, hi).free
  {
    Canonical(FreeAll(h, bs, hi), FreeAll(h, cs, hi), hi);
  }

  // Whatever has been allocated, releasing all of it restores the fresh buffer.
  lemma FreeEverything(h: State, bs: seq<nat>, hi: nat)
    requires Ok(h, hi) && hi >= START + OVERHEAD && Distinct(bs) && forall b :: b in bs <==> b in h.used
    ensures FreeAll(h, bs, hi) == Initial(hi)
  {
    var g := FreeAll(h, bs, hi);
    NoMembers(g.used);
    EmptyIsInitial(g, hi);
  }
}
