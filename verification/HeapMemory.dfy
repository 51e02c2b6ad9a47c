// How a byte buffer represents an abstract allocator state, and what each operation does to it.
module HeapMemory {
  import opened Words
  import opened Heap
  import opened Links

  ghost predicate Represents(m: seq<Byte>, h: State) {
    && START + OVERHEAD <= |m| < 0x8000_0000
    && Ok(h, |m|)
    && Threaded(m, h.cells, h.free)
    && Linked(m, 8, h.used)
    && forall o <- h.used :: o + OVERHEAD <= |m| && Size(m, o) == h.cells[o]
  }

  // The bytes are those of some heap.
  ghost predicate Readable(m: seq<Byte>) { exists h: State :: Represents(m, h) }

  // Memory agrees with h as far as the used blocks go.
  ghost predicate UsedPart(m: seq<Byte>, h: State) {
    Ok(h, |m|) && Linked(m, 8, h.used) && forall o <- h.used :: o + OVERHEAD <= |m| && Size(m, o) == h.cells[o]
  }

  // --- the layout --------------------------------------------------------------------------------

  // Eight bytes from address a on are the number v, the lowest byte first.
  ghost predicate NumberAt(m: seq<Byte>, a: nat, v: nat) {
    a + 8 <= |m| && v == m[a] as int + 256 * (m[a + 1] as int + 256 * (m[a + 2] as int + 256 * (m[a + 3] as int
      + 256 * (m[a + 4] as int + 256 * (m[a + 5] as int + 256 * (m[a + 6] as int + 256 * m[a + 7] as int))))))
  }

  lemma FromFour(s: seq<Byte>, t: seq<Byte>)
    requires |s| >= 4 && t == s[4..]
    ensures FromLE(s) ==
      s[0] as int + 256 * (s[1] as int + 256 * (s[2] as int + 256 * (s[3] as int + 256 * FromLE(t))))
  {
    assert s[1..][1..] == s[2..] && s[2..][1..] == s[3..] && s[3..][1..] == t;
    assert FromLE(s[3..]) == s[3] as int + 256 * FromLE(t);
    assert FromLE(s[2..]) == s[2] as int + 256 * FromLE(s[3..]);
    assert FromLE(s[1..]) == s[1] as int + 256 * FromLE(s[2..]);
  }

  lemma WordIs(m: seq<Byte>, a: nat)
    requires a + 8 <= |m|
    ensures NumberAt(m, a, Word(m, a))
  {
    var s := m[a..a + 8];
    FromFour(s, s[4..]);
    FromFour(s[4..], []);
    assert FromLE([]) == 0;
  }

  // The block number i of a list, with the offsets of the one before and of the one after and its size.
  ghost predicate HeaderIs(m: seq<Byte>, cells: map<nat, nat>, l: seq<nat>, i: nat) {
    && i < |l| && l[i] in cells && NumberAt(m, l[i], if i > 0 then l[i - 1] else 0)
    && NumberAt(m, l[i] + 8, if i + 1 < |l| then l[i + 1] else 0) && NumberAt(m, l[i] + 16, cells[l[i]])
  }

  ghost predicate ListIs(m: seq<Byte>, cells: map<nat, nat>, head: nat, l: seq<nat>) {
    NumberAt(m, head, if l == [] then 0 else l[0]) && forall i :: 0 <= i < |l| ==> HeaderIs(m, cells, l, i)
  }

  // From address 16 on there are blocks of a header of 24 bytes and a payload, one right behind the other.
  ghost predicate BlocksAre(cells: map<nat, nat>, size: nat) {
    16 in cells && forall b <- cells :: b + 24 + cells[b] == size || b + 24 + cells[b] in cells
  }

  // The bytes of a heap: lists of the free and of the used blocks begin at the addresses 0 and 8.
  lemma BytesOf(m: seq<Byte>, h: State)
    requires Represents(m, h)
    ensures ListIs(m, h.cells, 0, h.free) && ListIs(m, h.cells, 8, h.used) && BlocksAre(h.cells, |m|)
  {
    hide Linked, Ascending, Distinct, Coalesced, ListIs, Size, Spaced;
    ListBytes(m, h.cells, 8, h.used);
    ListBytes(m, h.cells, 0, h.free);
    TilesAre(h.cells, |m|);
  }

  lemma TilesAre(cells: map<nat, nat>, hi: nat)
    requires Tiled(cells, hi)
    ensures BlocksAre(cells, hi)
  {
    forall b | b in cells
      ensures b + 24 + cells[b] == hi || b + 24 + cells[b] in cells
    {
      assert End(cells, b) == b + 24 + cells[b];
    }
  }

  lemma HeaderBytes(m: seq<Byte>, cells: map<nat, nat>, head: nat, l: seq<nat>, i: nat)
    requires Linked(m, head, l) && i < |l| && l[i] in cells && l[i] + OVERHEAD <= |m| && Size(m, l[i]) == cells[l[i]]
    ensures HeaderIs(m, cells, l, i)
  {
    hide NumberAt, Word;
    assert Prev(m, l[i]) == At(l, i - 1) && Next(m, l[i]) == At(l, i + 1);
    WordIs(m, l[i]);
    WordIs(m, l[i] + 8);
    WordIs(m, l[i] + 16);
  }

  lemma ListBytes(m: seq<Byte>, cells: map<nat, nat>, head: nat, l: seq<nat>)
    requires Linked(m, head, l) && forall o <- l :: o in cells && o + OVERHEAD <= |m| && Size(m, o) == cells[o]
    ensures ListIs(m, cells, head, l)
  {
    hide NumberAt, Word, HeaderIs;
    WordIs(m, head);
    forall i | 0 <= i < |l|
      ensures HeaderIs(m, cells, l, i)
    {
      assert l[i] in l;
      HeaderBytes(m, cells, head, l, i);
    }
  }

  // A list in memory is determined by its head.
  lemma {:induction false} SameList(m: seq<Byte>, head: nat, l: seq<nat>, k: seq<nat>, i: nat)
    requires Linked(m, head, l) && Linked(m, head, k) && i <= |l| && (forall o <- l :: o != 0) && forall o <- k ::
      o != 0
    ensures i <= |k| && l[..i] == k[..i] && At(l, i) == At(k, i)
    decreases i
  {
    hide Word;
    if i > 0 {
      SameList(m, head, l, k, i - 1);
      assert l[i - 1] in l;
      assert At(l, i - 1) == l[i - 1] && l[i - 1] != 0;
      assert i - 1 < |k| && k[i - 1] == l[i - 1];
      assert Next(m, l[i - 1]) == At(l, i) && Next(m, k[i - 1]) == At(k, i);
      assert l[..i] == l[..i - 1] + [l[i - 1]] && k[..i] == k[..i - 1] + [k[i - 1]];
    }
  }

  lemma ListUnique(m: seq<Byte>, head: nat, l: seq<nat>, k: seq<nat>)
    requires Linked(m, head, l) && Linked(m, head, k) && (forall o <- l :: o != 0) && forall o <- k :: o != 0
    ensures l == k
  {
    SameList(m, head, l, k, |l|);
    SameList(m, head, k, l, |k|);
    assert l[..|l|] == l && k[..|k|] == k;
  }

  // The used blocks determine the heap that the bytes can stand for: bytes never stand for two heaps.
  lemma RepresentsOnce(m: seq<Byte>, h: State, g: State)
    requires UsedPart(m, h) && Represents(m, g)
    ensures g == h
  {
    UsedNotNull(h, |m|);
    UsedNotNull(g, |m|);
    ListUnique(m, 8, h.used, g.used);
    hide Linked, Tiled, Coalesced, Ascending, Threaded;
    Canonical(h, g, |m|);
  }

  lemma UsedNotNull(h: State, hi: nat)
    requires Ok(h, hi)
    ensures forall o <- h.used :: o in h.cells && o != 0
  {
    forall o | o in h.used
      ensures o in h.cells && o != 0
    {
      assert End(h.cells, o) >= o;
    }
  }

  // The parts of a representation.
  lemma Unfolded(m: seq<Byte>, g: State)
    requires Represents(m, g)
    ensures START + OVERHEAD <= |m| < 0x8000_0000 && Ok(g, |m|) && Tiled(g.cells, |m|) && Threaded(m, g.cells, g.free)
    ensures Linked(m, 0, g.free) && Linked(m, 8, g.used)
    ensures (forall o <- g.free :: o in g.cells && o !in g.used) && forall o <- g.used :: o in g.cells && o + OVERHEAD <= |m| && Size(m, o) == g.cells[o]
    ensures forall o :: o in g.cells <==> o in g.free || o in g.used
  {
    hide Linked, Coalesced, Distinct, Ascending, Spaced, Word;
  }

  lemma Assembled(m: seq<Byte>, g: State)
    requires START + OVERHEAD <= |m| < 0x8000_0000 && Ok(g, |m|) && Threaded(m, g.cells, g.free) && Linked(m, 8, g.used)
    requires forall o <- g.used :: o in g.cells && o + OVERHEAD <= |m| && Size(m, o) == g.cells[o]
    ensures Represents(m, g)
  {
    hide Linked, Ok, Threaded, Word;
  }

  lemma RepresentsUsed(m: seq<Byte>, h: State)
    requires Represents(m, h)
    ensures UsedPart(m, h)
  {
    hide Ok, Threaded, Linked;
  }

  // Whether the bytes stand for a heap is whether they stand for this one.
  lemma ReadableWhen(m: seq<Byte>, h: State)
    requires UsedPart(m, h)
    ensures Readable(m) <==> Represents(m, h)
  {
    hide UsedPart, Represents;
    if Readable(m) {
      var g: State :| Represents(m, g);
      RepresentsOnce(m, h, g);
    }
  }

  // The payload of block o is byte for byte the same.
  ghost predicate PayloadKept(m: seq<Byte>, m': seq<Byte>, cells: map<nat, nat>, o: nat) {
    && |m'| == |m|
    && o in cells && End(cells, o) <= |m| && m'[o + OVERHEAD..End(cells, o)] == m[o + OVERHEAD..End(cells, o)]
  }

  // The same for every block on the used list.
  ghost predicate PayloadsKept(m: seq<Byte>, m': seq<Byte>, h: State) {
    && |m'| == |m|
    && forall o <- h.used :: PayloadKept(m, m', h.cells, o)
  }

  // --- what a release does to memory ----------------------------------------------------------------

  // Memory in which b is in neither list, on its way from one to the other.
  ghost predicate DetachedMem(m: seq<Byte>, cells: map<nat, nat>, free: seq<nat>, used: seq<nat>, b: nat) {
    && START + OVERHEAD <= |m| < 0x8000_0000
    && Detached(cells, free, used, b, |m|)
    && Threaded(m, cells, free)
    && Linked(m, 8, used)
    && (forall o <- used :: o + OVERHEAD <= |m| && Size(m, o) == cells[o])
    && b + OVERHEAD <= |m| && Size(m, b) == cells[b]
  }

  // Headers and payloads of distinct blocks do not overlap.
  lemma BlocksApart(cells: map<nat, nat>, hi: nat, o: nat, p: nat)
    requires Tiled(cells, hi) && o in cells && p in cells
    ensures START <= o && o + OVERHEAD <= End(cells, o) <= hi
    ensures o != p ==> End(cells, o) <= p || End(cells, p) <= o
  {
    var e, f := End(cells, o), End(cells, p);
  }

  // The payload of a block is clear of every header, and its header of every other header.
  lemma BlockClear(cells: map<nat, nat>, hi: nat, l: seq<nat>, o: nat)
    requires Tiled(cells, hi) && o in cells && forall p <- l :: p in cells
    ensures START <= o && o + OVERHEAD <= End(cells, o) <= hi
    ensures Clear(o + OVERHEAD, End(cells, o), l)
    ensures o !in l ==> Clear(o, o + OVERHEAD, l)
  {
    BlocksApart(cells, hi, o, o);
    forall p | p in l
      ensures p + OVERHEAD <= o + OVERHEAD || End(cells, o) <= p
      ensures o !in l ==> p + OVERHEAD <= o || o + OVERHEAD <= p
    {
      BlocksApart(cells, hi, p, p);
      BlocksApart(cells, hi, o, p);
    }
  }

  lemma LowClear(cells: map<nat, nat>, hi: nat, l: seq<nat>, x: nat, y: nat)
    requires Tiled(cells, hi) && y <= START && forall p <- l :: p in cells
    ensures Clear(x, y, l)
  {
    Bounds(cells, hi);
  }

  lemma {:induction false} WithoutIsDrop(s: seq<nat>, k: nat)
    requires Distinct(s) && k < |s|
    ensures Without(s, s[k]) == s[..k] + s[k + 1..]
  {
    if k == 0 {
      assert s[0] !in s[1..];
      WithoutDistinct(s[1..], s[0]);
    } else {
      WithoutIsDrop(s[1..], k - 1);
      assert s[1..][k - 1] == s[k] && s[0] != s[k];
      assert [s[0]] + (s[1..][..k - 1] + s[1..][k..]) == s[..k] + s[k + 1..];
    }
  }

  lemma UsedSpaced(m: seq<Byte>, g: State)
    requires Represents(m, g)
    ensures Spaced(g.used, |m|) && forall o <- g.used :: o in g.cells
  {
    TiledSpaced(g.cells, g.used, |m|);
  }

  lemma UnlinkUsedKept(m: seq<Byte>, g: State, k: nat)
    requires Represents(m, g) && k < |g.used|
    ensures UnlinkOk(m, g.used[k])
    ensures Threaded(Unlink(m, 8, g.used[k]), g.cells, g.free)
    ensures PayloadsKept(m, Unlink(m, 8, g.used[k]), g)
  {
    hide Unlink, FromLE, Linked, Spaced, Represents, Tiled, Ok, Threaded;
    Unfolded(m, g);
    UsedSpaced(m, g);
    Removable(m, 8, g.used, k);
    var m', u, cells := Unlink(m, 8, g.used[k]), g.used, g.cells;
    LowClear(cells, |m|, u, 0, 8);
    UnlinkSlice(m, 8, u, k, 0, 8);
    forall o | o in g.free
      ensures o + OVERHEAD <= |m| && m'[o..o + OVERHEAD] == m[o..o + OVERHEAD]
    {
      BlockClear(cells, |m|, u, o);
      UnlinkSlice(m, 8, u, k, o, o + OVERHEAD);
    }
    ThreadedKept(m, m', cells, g.free);
    forall o | o in u
      ensures o in cells && End(cells, o) <= |m| && m'[o + OVERHEAD..End(cells, o)] == m[o + OVERHEAD..End(cells, o)]
    {
      BlockClear(cells, |m|, u, o);
      UnlinkSlice(m, 8, u, k, o + OVERHEAD, End(cells, o));
    }
  }

  lemma DetachUsed(g: State, hi: nat, b: nat)
    requires Ok(g, hi) && b in g.used
    ensures Detached(g.cells, g.free, Without(g.used, b), b, hi)
  {
    WithoutDistinct(g.used, b);
  }

  lemma UnlinkUsedSizes(m: seq<Byte>, g: State, k: nat)
    requires Represents(m, g) && k < |g.used| && UnlinkOk(m, g.used[k])
    ensures forall o <- g.used :: o + OVERHEAD <= |m| && Size(Unlink(m, 8, g.used[k]), o) == g.cells[o]
  {
    UsedSpaced(m, g);
    hide Unlink, FromLE, Ok, Threaded;
    forall o | o in g.used
      ensures o + OVERHEAD <= |m| && Size(Unlink(m, 8, g.used[k]), o) == g.cells[o]
    {
      var j :| 0 <= j < |g.used| && g.used[j] == o;
      UnlinkSize(m, 8, g.used, k, j);
    }
  }

  // Taking block k off the used list.
  lemma UnlinkUsed(m: seq<Byte>, g: State, k: nat)
    requires Represents(m, g) && k < |g.used|
    ensures var b := g.used[k];
      && UnlinkOk(m, b)
      && DetachedMem(Unlink(m, 8, b), g.cells, g.free, Without(g.used, b), b)
      && Prev(Unlink(m, 8, b), b) == 0 && Next(Unlink(m, 8, b), b) == 0
  {
    hide Unlink, FromLE, Tiled, Ascending, Coalesced, Distinct, Threaded, Linked, Detached;
    var b, u := g.used[k], g.used;
    assert b in u;
    UsedSpaced(m, g);
    UnlinkUsedKept(m, g, k);
    UnlinkLinked(m, 8, u, k);
    WithoutIsDrop(u, k);
    DetachUsed(g, |m|, b);
    UnlinkUsedSizes(m, g, k);
  }

  lemma DetachedFacts(m: seq<Byte>, cells: map<nat, nat>, free: seq<nat>, used: seq<nat>, b: nat)
    requires DetachedMem(m, cells, free, used, b)
    ensures Tiled(cells, |m|) && Ascending(free) && b in cells && b !in free && (forall o <- free :: o in cells)
    ensures forall o <- used :: o in cells && o !in WithBlock(free, b)
    ensures forall o <- WithBlock(free, b) :: o in cells
  {
    WithBlockMembers(free, b);
  }

  lemma WithBlockMembers(free: seq<nat>, b: nat)
    ensures forall o :: o in WithBlock(free, b) <==> o in free || o == b
  {
    var k := Position(free, b);
    assert free[..k] + free[k..] == free;
  }

  // What insert_block_to_free_list leaves behind.
  ghost predicate InsertResult(m: seq<Byte>, m': seq<Byte>, cells: map<nat, nat>, free: seq<nat>, b: nat)
    requires b in cells && 8 <= |m| && forall o <- free :: o in cells
  {
    && (free == [] ==> m' == Put(m, 0, b))
    && (free != [] ==> var (c, f) := Insert(cells, free, b); Threaded(m', c, f))
    && (free != [] ==> Frame(m, m', WithBlock(free, b)))
  }

  // The free list is well formed afterwards unless b was inserted into an empty list with stale links.
  lemma InsertThreads(m: seq<Byte>, m': seq<Byte>, cells: map<nat, nat>, free: seq<nat>, b: nat)
    requires Tiled(cells, |m|) && |m| < TWO64 && b in cells && b + OVERHEAD <= |m| && Size(m, b) == cells[b]
    requires (forall o <- free :: o in cells) && InsertResult(m, m', cells, free, b)
    ensures Frame(m, m', WithBlock(free, b))
    ensures var (c, f) := Insert(cells, free, b);
      Threaded(m', c, f) <==> free != [] || (Prev(m, b) == 0 && Next(m, b) == 0)
  {
    if free == [] {
      Bounds(cells, |m|);
      FirstBlock(m, cells, b);
      assert free[..0] + [b] + free[0..] == [b];
      assert Insert(cells, free, b) == (cells, [b]);
    }
  }

  // Blocks outside the list keep their headers and payloads.
  lemma FrameKeeps(m: seq<Byte>, m': seq<Byte>, cells: map<nat, nat>, l: seq<nat>, u: seq<nat>)
    requires START + OVERHEAD <= |m| && Tiled(cells, |m|) && Frame(m, m', l) && forall o <- l :: o in cells
    requires Linked(m, 8, u) && forall o <- u :: o in cells && o !in l
    ensures Linked(m', 8, u)
    ensures forall o <- u :: o + OVERHEAD <= |m| && Size(m', o) == Size(m, o)
    ensures forall o <- u :: End(cells, o) <= |m| && m'[o + OVERHEAD..End(cells, o)] == m[o + OVERHEAD..End(cells, o)]
  {
    hide Linked, FromLE, Clear;
    LowClear(cells, |m|, l, 8, 16);
    var s := m'[8..16];
    forall o | o in u
      ensures o + OVERHEAD <= End(cells, o) <= |m| && m'[o..o + OVERHEAD] == m[o..o + OVERHEAD]
      ensures m'[o + OVERHEAD..End(cells, o)] == m[o + OVERHEAD..End(cells, o)]
    {
      BlockClear(cells, |m|, l, o);
    }
    ListKept(m, m', 8, u);
  }

  lemma FreeMemory(m: seq<Byte>, m': seq<Byte>, g: State, k: nat)
    requires Represents(m, g) && k < |g.used| && UnlinkOk(m, g.used[k])
    requires g.used[k] in g.cells && forall o <- g.free :: o in g.cells
    requires InsertResult(Unlink(m, 8, g.used[k]), m', g.cells, g.free, g.used[k])
    ensures var (c, f) := Insert(g.cells, g.free, g.used[k]); Threaded(m', c, f)
    ensures Linked(m', 8, Without(g.used, g.used[k]))
    ensures forall o <- Without(g.used, g.used[k]) ::
      && o in g.cells && o + OVERHEAD <= End(g.cells, o) <= |m| && Size(m', o) == g.cells[o]
      && m'[o + OVERHEAD..End(g.cells, o)] == m[o + OVERHEAD..End(g.cells, o)]
  {
    hide Unlink, FromLE, Put, Linked, Threaded, Tiled, Insert, WithBlock, Detached, InsertResult, Frame, Ok;
    var b := g.used[k];
    var m1, u := Unlink(m, 8, b), Without(g.used, b);
    UnlinkUsed(m, g, k);
    UnlinkUsedKept(m, g, k);
    DetachedFacts(m1, g.cells, g.free, u, b);
    InsertThreads(m1, m', g.cells, g.free, b);
    FrameKeeps(m1, m', g.cells, WithBlock(g.free, b), u);
  }

  lemma FreeRepresents(m: seq<Byte>, m': seq<Byte>, g: State, k: nat)
    requires Represents(m, g) && k < |g.used| && UnlinkOk(m, g.used[k])
    requires g.used[k] in g.cells && forall o <- g.free :: o in g.cells
    requires InsertResult(Unlink(m, 8, g.used[k]), m', g.cells, g.free, g.used[k]) && |m'| == |m|
    ensures Represents(m', Heap.Free(g, g.used[k])) && PayloadsKept(m, m', Heap.Free(g, g.used[k]))
  {
    hide Unlink, FromLE, Linked, Threaded, Insert, InsertResult, Ok, Without;
    FreeMemory(m, m', g, k);
    assert g.used[k] in g.used;
    FreeOk(g, g.used[k], |m|);
  }

  // --- what an allocation does to memory --------------------------------------------------------------

  // The used list u, its sizes and its payloads are as in m.
  ghost predicate UsedIntact(m: seq<Byte>, m': seq<Byte>, cells: map<nat, nat>, u: seq<nat>) {
    && |m'| == |m|
    && Linked(m', 8, u)
    && forall o <- u ::
      && o in cells && o + OVERHEAD <= End(cells, o) <= |m|
      && Size(m', o) == cells[o]
      && m'[o + OVERHEAD..End(cells, o)] == m[o + OVERHEAD..End(cells, o)]
  }

  // Header and payload of every block of l, and the head word, are the same in m and m'.
  ghost predicate BlocksKept(m: seq<Byte>, m': seq<Byte>, cells: map<nat, nat>, head: nat, l: seq<nat>) {
    && HeadersKept(m, m', head, l)
    && forall o <- l :: o in cells && o + OVERHEAD <= End(cells, o) <= |m|
        && m'[o + OVERHEAD..End(cells, o)] == m[o + OVERHEAD..End(cells, o)]
  }

  lemma KeptIntact(m: seq<Byte>, m1: seq<Byte>, m2: seq<Byte>, cells: map<nat, nat>, u: seq<nat>)
    requires UsedIntact(m, m1, cells, u) && BlocksKept(m1, m2, cells, 8, u)
    ensures UsedIntact(m, m2, cells, u)
  {
    hide Linked, FromLE;
    ListKept(m1, m2, 8, u);
  }

  lemma Intact(m: seq<Byte>, g: State)
    requires Represents(m, g)
    ensures UsedIntact(m, m, g.cells, g.used)
  {
    hide Linked, FromLE, Threaded;
    forall o | o in g.used
      ensures o in g.cells && o + OVERHEAD <= End(g.cells, o) <= |m|
    {
      BlocksApart(g.cells, |m|, o, o);
    }
  }

  lemma UnlinkFreeKept(m: seq<Byte>, cells: map<nat, nat>, free: seq<nat>, k: nat, u: seq<nat>)
    requires START + OVERHEAD <= |m| && Tiled(cells, |m|) && Threaded(m, cells, free) && k < |free|
    requires forall o <- u :: o in cells && o !in free
    ensures UnlinkOk(m, free[k]) && BlocksKept(m, Unlink(m, 0, free[k]), cells, 8, u)
  {
    Removable(m, 0, free, k);
    hide Unlink, FromLE, Linked, Spaced;
    var m' := Unlink(m, 0, free[k]);
    LowClear(cells, |m|, free, 8, 16);
    UnlinkSlice(m, 0, free, k, 8, 16);
    forall o | o in u
      ensures o + OVERHEAD <= End(cells, o) <= |m| && m'[o..o + OVERHEAD] == m[o..o + OVERHEAD]
      ensures m'[o + OVERHEAD..End(cells, o)] == m[o + OVERHEAD..End(cells, o)]
    {
      BlockClear(cells, |m|, free, o);
      UnlinkSlice(m, 0, free, k, o, o + OVERHEAD);
      UnlinkSlice(m, 0, free, k, o + OVERHEAD, End(cells, o));
    }
  }

  // Words inside the payload of a free block survive unlinking it.
  lemma UnlinkFreePayload(m: seq<Byte>, cells: map<nat, nat>, free: seq<nat>, k: nat, x: nat)
    requires START + OVERHEAD <= |m| && Tiled(cells, |m|) && Threaded(m, cells, free) && k < |free|
      && UnlinkOk(m, free[k])
    requires free[k] in cells && free[k] + OVERHEAD <= x && x + 8 <= End(cells, free[k])
    ensures x + 8 <= |m| && Word(Unlink(m, 0, free[k]), x) == Word(m, x)
  {
    hide Unlink, Linked, Spaced;
    var b := free[k];
    BlockClear(cells, |m|, free, b);
    UnlinkSlice(m, 0, free, k, b + OVERHEAD, End(cells, b));
    SliceWord(m, Unlink(m, 0, b), b + OVERHEAD, End(cells, b), x);
  }

  // A write inside the extent of b leaves all other blocks alone.
  lemma InsideKept(m: seq<Byte>, cells: map<nat, nat>, b: nat, a: nat, v: nat, head: nat, l: seq<nat>)
    requires START + OVERHEAD <= |m| && Tiled(cells, |m|) && b in cells && b <= a && a + 8 <= End(cells, b)
    requires (head == 0 || head == 8) && forall o <- l :: o in cells && o != b
    ensures a + 8 <= |m| && BlocksKept(m, Put(m, a, v), cells, head, l)
  {
    hide Put;
    BlocksApart(cells, |m|, b, b);
    PutSlice(m, a, v, head, head + 8);
    forall o | o in l
      ensures o + OVERHEAD <= End(cells, o) <= |m| && Put(m, a, v)[o..o + OVERHEAD] == m[o..o + OVERHEAD]
      ensures Put(m, a, v)[o + OVERHEAD..End(cells, o)] == m[o + OVERHEAD..End(cells, o)]
    {
      BlocksApart(cells, |m|, o, b);
      PutSlice(m, a, v, o, o + OVERHEAD);
      PutSlice(m, a, v, o + OVERHEAD, End(cells, o));
    }
  }

  lemma PushSize(m: seq<Byte>, b: nat, u: seq<nat>, o: nat)
    requires Linked(m, 8, u) && Spaced([b] + u, |m|) && 16 <= |m| < TWO64 && (o == b || o in u)
    ensures (Word(m, 8) != 0 ==> Word(m, 8) + OVERHEAD <= |m|) && b + OVERHEAD <= |m| && o + OVERHEAD <= |m|
    ensures Size(PushFront(m, b), o) == Size(m, o)
  {
    hide PushFront, FromLE;
    var r := [b] + u;
    assert r[0] == b && (u != [] ==> r[1] == u[0]);
    assert o in r;
    var j :| 0 <= j < |r| && r[j] == o;
    if j != 0 { Far(r, |m|, 0, j); }
    if j != 1 && u != [] { Far(r, |m|, 1, j); }
    PushWord(m, b, o + 16);
  }

  // Putting b in front of the used list u.
  lemma PushIntact(m: seq<Byte>, m1: seq<Byte>, cells: map<nat, nat>, u: seq<nat>, b: nat)
    requires START + OVERHEAD <= |m| < TWO64 && Tiled(cells, |m|) && UsedIntact(m, m1, cells, u)
    requires b in cells && b + OVERHEAD <= |m| && Size(m1, b) == cells[b] && Distinct([b] + u)
    ensures Word(m1, 8) != 0 ==> Word(m1, 8) + OVERHEAD <= |m|
    ensures var m2 := PushFront(m1, b);
      && |m2| == |m| && Linked(m2, 8, [b] + u)
      && (forall o <- [b] + u :: o in cells && o + OVERHEAD <= End(cells, o) <= |m| && Size(m2, o) == cells[o])
      && (forall o <- u :: m2[o + OVERHEAD..End(cells, o)] == m[o + OVERHEAD..End(cells, o)])
  {
    hide PushFront, FromLE, Linked;
    var r := [b] + u;
    assert forall o :: o in r <==> o == b || o in u;
    TiledSpaced(cells, r, |m|);
    PushLinked(m1, b, u);
    var m2 := PushFront(m1, b);
    forall o | o in r
      ensures o in cells && o + OVERHEAD <= End(cells, o) <= |m| && Size(m2, o) == cells[o]
      ensures o in u ==> m2[o + OVERHEAD..End(cells, o)] == m[o + OVERHEAD..End(cells, o)]
    {
      PushSize(m1, b, u, o);
      BlockClear(cells, |m|, r, o);
      assert Clear(o + OVERHEAD, End(cells, o), u);
      PushSlice(m1, b, u, o + OVERHEAD, End(cells, o));
    }
  }

  // ... does not concern the free list.
  lemma PushFree(m: seq<Byte>, c: map<nat, nat>, f: seq<nat>, u: seq<nat>, b: nat)
    requires START + OVERHEAD <= |m| && Tiled(c, |m|) && Linked(m, 8, u) && b in c && b + OVERHEAD <= |m|
    requires (forall o <- u :: o in c) && forall o <- f :: o in c && o != b && o !in u
    ensures Word(m, 8) != 0 ==> Word(m, 8) + OVERHEAD <= |m|
    ensures Threaded(PushFront(m, b), c, f) <==> Threaded(m, c, f)
  {
    hide PushFront, FromLE, Linked;
    var r := [b] + u;
    assert forall o :: o in r <==> o == b || o in u;
    LowClear(c, |m|, u, 0, 8);
    BlocksApart(c, |m|, b, b);
    PushSlice(m, b, u, 0, 8);
    var m2 := PushFront(m, b);
    forall o | o in f
      ensures o + OVERHEAD <= |m| && m2[o..o + OVERHEAD] == m[o..o + OVERHEAD]
    {
      BlockClear(c, |m|, r, o);
      assert Clear(o, o + OVERHEAD, u);
      PushSlice(m, b, u, o, o + OVERHEAD);
    }
    if Threaded(m, c, f) { ThreadedKept(m, m2, c, f); }
    if Threaded(m2, c, f) { ThreadedKept(m2, m, c, f); }
  }

  lemma FreeExtent(m: seq<Byte>, g: State)
    requires Represents(m, g)
    ensures forall o <- g.free :: o in g.cells && o + OVERHEAD + g.cells[o] <= |m|
  {
    Bounds(g.cells, |m|);
  }

  // The links of the header that a split would create, which lies in former payload bytes, are null,
  // or they will be written because another free block remains.
  ghost predicate CleanSplit(m: seq<Byte>, g: State, n: nat)
    requires Represents(m, g)
  {
    FreeExtent(m, g);
    Splits(g, n) && |g.free| == 1 ==>
      var s := g.free[0] + OVERHEAD + n;
      Word(m, s) == 0 && Word(m, s + 8) == 0
  }

  // The memory and used list right after block k has left the free list.
  lemma Taken(m: seq<Byte>, g: State, k: nat)
    requires Represents(m, g) && k < |g.free|
    ensures var b, rest := g.free[k], g.free[..k] + g.free[k + 1..];
      && UnlinkOk(m, b) && b in g.cells && START <= b && End(g.cells, b) <= |m|
      && Threaded(Unlink(m, 0, b), g.cells, rest)
      && UsedIntact(m, Unlink(m, 0, b), g.cells, g.used)
      && Size(Unlink(m, 0, b), b) == g.cells[b]
  {
    var b := g.free[k];
    assert b in g.free;
    BlocksApart(g.cells, |m|, b, b);
    UnlinkFreeKept(m, g.cells, g.free, k, g.used);
    hide Unlink, FromLE, Linked, Tiled;
    Unthread(m, g.cells, g.free, k);
    Intact(m, g);
    KeptIntact(m, m, Unlink(m, 0, b), g.cells, g.used);
  }

  lemma UsedFacts(g: State, hi: nat, b: nat, u: seq<nat>)
    requires Ok(g, hi) && g.used == [b] + u
    ensures Tiled(g.cells, hi) && Distinct([b] + u) && b in g.cells && START <= b
      && b + OVERHEAD <= End(g.cells, b) <= hi
    ensures (forall o <- u :: o in g.cells && o != b) && forall o <- g.free :: o in g.cells && o != b && o !in u
  {
    assert b in g.used;
    var r := [b] + u;
    assert r[0] == b && forall i :: 0 <= i < |u| ==> r[i + 1] == u[i];
    assert forall o <- u :: o in g.used;
    BlocksApart(g.cells, hi, b, b);
  }

  lemma PayloadOfSame(m: seq<Byte>, m': seq<Byte>, g: State, c: map<nat, nat>)
    requires |m'| == |m|
    requires forall o <- g.used ::
      && o in c && o in g.cells && c[o] == g.cells[o] && o + OVERHEAD <= End(c, o) <= |m|
      && m'[o + OVERHEAD..End(c, o)] == m[o + OVERHEAD..End(c, o)]
    ensures PayloadsKept(m, m', g)
  {
  }

  // The last step of an allocation: the block, already detached and resized, joins the used list.
  lemma FinishAlloc(m: seq<Byte>, m4: seq<Byte>, g: State, g': State, b: nat)
    requires Represents(m, g) && Ok(g', |m|) && g'.used == [b] + g.used
    requires UsedIntact(m, m4, g'.cells, g.used)
    requires forall o <- g.used :: o in g.cells && o in g'.cells && g'.cells[o] == g.cells[o]
    requires b in g'.cells && b + OVERHEAD <= |m| && Size(m4, b) == g'.cells[b]
    ensures Word(m4, 8) != 0 ==> Word(m4, 8) + OVERHEAD <= |m|
    ensures Represents(PushFront(m4, b), g') <==> Threaded(m4, g'.cells, g'.free)
    ensures PayloadsKept(m, PushFront(m4, b), g) && UsedPart(PushFront(m4, b), g')
  {
    hide FromLE, Linked, PushFront, Threaded, Tiled, Coalesced, Ok;
    UsedFacts(g', |m|, b, g.used);
    PushIntact(m, m4, g'.cells, g.used, b);
    PushFree(m4, g'.cells, g'.free, g.used, b);
    PayloadOfSame(m, PushFront(m4, b), g, g'.cells);
  }

  lemma AllocFacts(g: State, n: nat, hi: nat)
    requires Ok(g, hi) && FirstFit(g.cells, g.free, n) < |g.free|
    ensures var k, g' := FirstFit(g.cells, g.free, n), Heap.Alloc(g, n);
      && Ok(g', hi) && g'.used == [g.free[k]] + g.used && g.free[k] in g.cells && g.free[k] in g'.cells
      && forall o <- g.used :: o in g.cells && o in g'.cells && g'.cells[o] == g.cells[o]
  {
    AllocOk(g, n, hi);
    assert g.free[FirstFit(g.cells, g.free, n)] in g.free;
    assert forall o <- g.used :: o in Heap.Alloc(g, n).used;
    assert g.free[FirstFit(g.cells, g.free, n)] in Heap.Alloc(g, n).used;
  }

  lemma AllocWholeMemory(m: seq<Byte>, g: State, n: nat)
    requires Represents(m, g) && FirstFit(g.cells, g.free, n) < |g.free| && !Splits(g, n)
    ensures var b := g.free[FirstFit(g.cells, g.free, n)];
      && UnlinkOk(m, b) && b + OVERHEAD <= |m|
      && (Word(Unlink(m, 0, b), 8) != 0 ==> Word(Unlink(m, 0, b), 8) + OVERHEAD <= |m|)
      && Represents(PushFront(Unlink(m, 0, b), b), Heap.Alloc(g, n))
      && PayloadsKept(m, PushFront(Unlink(m, 0, b), b), g)
  {
    var k := FirstFit(g.cells, g.free, n);
    assert forall o <- g.free :: o in g.cells;
    hide Unlink, FromLE, Linked, PushFront, Threaded, Tiled, Coalesced, Ok, Ascending, Distinct;
    Taken(m, g, k);
    AllocFacts(g, n, |m|);
    FinishAlloc(m, Unlink(m, 0, g.free[k]), g, Heap.Alloc(g, n), g.free[k]);
  }

  // Rebasing the used list on a tiling with the same sizes for its blocks.
  lemma IntactRebase(m: seq<Byte>, m': seq<Byte>, cells: map<nat, nat>, c: map<nat, nat>, u: seq<nat>)
    requires UsedIntact(m, m', cells, u) && forall o <- u :: o in c && c[o] == cells[o]
    ensures UsedIntact(m, m', c, u)
  {
    forall o | o in u
      ensures End(c, o) == End(cells, o)
    {
    }
  }

  lemma ThreadedRebase(m: seq<Byte>, cells: map<nat, nat>, c: map<nat, nat>, l: seq<nat>)
    requires Threaded(m, cells, l) && forall o <- l :: o in c && c[o] == cells[o]
    ensures Threaded(m, c, l)
  {
  }

  lemma RestFacts(g: State, c: map<nat, nat>, k: nat, s: nat, hi: nat)
    requires Ok(g, hi) && k < |g.free| && s !in g.cells && Joined(c, g.cells, g.free[k], s)
    ensures forall o <- g.free[..k] + g.free[k + 1..] :: o in g.cells && o != g.free[k] && o in c && c[o] == g.cells[o]
  {
    SplitRest(g, c, k, s, hi);
    Dropped(g.free, k);
  }

  lemma SizeWritten(m: seq<Byte>, s: nat, v: nat)
    requires s + OVERHEAD <= |m| && v < TWO64
    ensures var m2 := Put(m, s + 16, v); Size(m2, s) == v && Prev(m2, s) == Prev(m, s) && Next(m2, s) == Next(m, s)
  {
    PutAt(m, s + 16, v, s + 16);
    PutAt(m, s + 16, v, s);
    PutAt(m, s + 16, v, s + 8);
  }

  // Writing the size of the split-off block: nothing else is affected.
  lemma SplitSized(m: seq<Byte>, m1: seq<Byte>, g: State, c: map<nat, nat>, k: nat, s: nat)
    requires START + OVERHEAD <= |m| < TWO64 && Ok(g, |m|) && k < |g.free|
    requires Joined(c, g.cells, g.free[k], s) && s !in g.cells
    requires |m1| == |m| && Threaded(m1, g.cells, g.free[..k] + g.free[k + 1..]) && UsedIntact(m, m1, g.cells, g.used)
    ensures s + OVERHEAD <= |m| && s in c
    ensures var m2 := Put(m1, s + 16, c[s]);
      && Threaded(m2, c, g.free[..k] + g.free[k + 1..])
      && UsedIntact(m, m2, c, g.used)
      && Size(m2, s) == c[s] && Prev(m2, s) == Prev(m1, s) && Next(m2, s) == Next(m1, s)
  {
    hide FromLE, Put, Linked, Tiled, Joined, Ascending, Coalesced, Distinct, Threaded, UsedIntact, BlocksKept;
    var b, rest := g.free[k], g.free[..k] + g.free[k + 1..];
    SplitExtent(g, c, k, s, |m|);
    RestFacts(g, c, k, s, |m|);
    InsideKept(m1, g.cells, b, s + 16, c[s], 0, rest);
    InsideKept(m1, g.cells, b, s + 16, c[s], 8, g.used);
    var m2 := Put(m1, s + 16, c[s]);
    KeptThreaded(m1, m2, g.cells, rest);
    ThreadedRebase(m2, g.cells, c, rest);
    KeptIntact(m, m1, m2, g.cells, g.used);
    IntactRebase(m, m2, g.cells, c, g.used);
    SizeWritten(m1, s, c[s]);
  }

  lemma KeptThreaded(m: seq<Byte>, m': seq<Byte>, cells: map<nat, nat>, l: seq<nat>)
    requires Threaded(m, cells, l) && BlocksKept(m, m', cells, 0, l)
    ensures Threaded(m', cells, l)
  {
    ThreadedKept(m, m', cells, l);
  }

  lemma SplitExtent(g: State, c: map<nat, nat>, k: nat, s: nat, hi: nat)
    requires Ok(g, hi) && k < |g.free| && Joined(c, g.cells, g.free[k], s)
    ensures var b := g.free[k];
      && b in g.cells && s in c && b in c && b < s && s + OVERHEAD <= End(c, s) == End(g.cells, b) <= hi && c[s] <= hi
          && End(c, b) == s
    ensures forall o <- g.used :: o in g.cells && o != g.free[k] && o in c && c[o] == g.cells[o]
  {
    var b := g.free[k];
    assert b in g.free;
    BlocksApart(g.cells, hi, b, b);
    forall o | o in g.used
      ensures o in g.cells && o != b && o in c && c[o] == g.cells[o]
    {
      assert End(g.cells, o) == End(c, o);
    }
  }

  // After the split-off block has been inserted, the size of the block handed out is rewritten.
  lemma SameHeaders(m: seq<Byte>, m': seq<Byte>, cells: map<nat, nat>, head: nat, l: seq<nat>)
    requires BlocksKept(m, m', cells, head, l)
    ensures HeadersKept(m, m', head, l) && HeadersKept(m', m, head, l)
  {
  }

  lemma IntactSize(m: seq<Byte>, m': seq<Byte>, cells: map<nat, nat>, u: seq<nat>)
    requires UsedIntact(m, m', cells, u)
    ensures |m'| == |m|
  {
  }

  lemma BlockFits(cells: map<nat, nat>, hi: nat, b: nat)
    requires Tiled(cells, hi) && b in cells
    ensures b + OVERHEAD <= End(cells, b) <= hi && cells[b] < hi
  {
    BlocksApart(cells, hi, b, b);
  }

  lemma SplitShrunk(m: seq<Byte>, m3: seq<Byte>, g: State, g': State, b: nat)
    requires START + OVERHEAD <= |m| < TWO64 && Ok(g', |m|) && g'.used == [b] + g.used
    requires UsedIntact(m, m3, g'.cells, g.used)
    ensures b + OVERHEAD <= |m| && b in g'.cells
    ensures var m4 := Put(m3, b + 16, g'.cells[b]);
      && UsedIntact(m, m4, g'.cells, g.used)
      && Size(m4, b) == g'.cells[b]
      && (Threaded(m4, g'.cells, g'.free) <==> Threaded(m3, g'.cells, g'.free))
  {
    hide FromLE, Put, Linked, Ok, Distinct, Threaded, BlocksKept, Tiled, UsedIntact, HeadersKept;
    UsedFacts(g', |m|, b, g.used);
    IntactSize(m, m3, g'.cells, g.used);
    BlockFits(g'.cells, |m|, b);
    var m4 := Put(m3, b + 16, g'.cells[b]);
    InsideKept(m3, g'.cells, b, b + 16, g'.cells[b], 0, g'.free);
    InsideKept(m3, g'.cells, b, b + 16, g'.cells[b], 8, g.used);
    KeptIntact(m, m3, m4, g'.cells, g.used);
    SameHeaders(m3, m4, g'.cells, 0, g'.free);
    if Threaded(m3, g'.cells, g'.free) { ThreadedKept(m3, m4, g'.cells, g'.free); }
    if Threaded(m4, g'.cells, g'.free) { ThreadedKept(m4, m3, g'.cells, g'.free); }
    PutAt(m3, b + 16, g'.cells[b], b + 16);
  }

  // Memory before the last step of a splitting allocation; m3 is what the insertion of the split-off block left.
  lemma SplitInserted(m: seq<Byte>, m1: seq<Byte>, m3: seq<Byte>, g: State, c: map<nat, nat>, k: nat, s: nat)
    requires START + OVERHEAD <= |m| < TWO64 && Ok(g, |m|) && k < |g.free|
    requires Joined(c, g.cells, g.free[k], s) && s !in g.cells
    requires |m1| == |m| && Threaded(m1, g.cells, g.free[..k] + g.free[k + 1..]) && UsedIntact(m, m1, g.cells, g.used)
    requires s + OVERHEAD <= |m| && s in c && forall o <- g.free[..k] + g.free[k + 1..] :: o in c
    requires InsertResult(Put(m1, s + 16, c[s]), m3, c, g.free[..k] + g.free[k + 1..], s)
    ensures |m3| == |m| && UsedIntact(m, m3, c, g.used)
    ensures Threaded(m3, c, g.free[k := s]) <==> |g.free| > 1 || (Prev(m1, s) == 0 && Next(m1, s) == 0)
  {
    hide FromLE, Put, Linked, Tiled, Joined, Ascending, Coalesced, Distinct, Threaded, BlocksKept, InsertResult,
      WithBlock, Insert;
    var rest := g.free[..k] + g.free[k + 1..];
    var m2 := Put(m1, s + 16, c[s]);
    SplitSized(m, m1, g, c, k, s);
    SplitTiled(g.cells, c, g.free[k], s, |m|);
    SplitInsert(g, c, k, s, |m|);
    InsertThreads(m2, m3, c, rest, s);
    SplitUsedClear(g, c, k, s, |m|);
    FrameKeeps(m2, m3, c, WithBlock(rest, s), g.used);
  }

  lemma SplitUsedClear(g: State, c: map<nat, nat>, k: nat, s: nat, hi: nat)
    requires Ok(g, hi) && k < |g.free| && s !in g.cells && Joined(c, g.cells, g.free[k], s)
    ensures forall o <- WithBlock(g.free[..k] + g.free[k + 1..], s) :: o in c
    ensures forall o <- g.used :: o in c && o !in WithBlock(g.free[..k] + g.free[k + 1..], s)
  {
    hide WithBlock;
    var rest := g.free[..k] + g.free[k + 1..];
    WithBlockMembers(rest, s);
    RestFacts(g, c, k, s, hi);
    SplitExtent(g, c, k, s, hi);
    Dropped(g.free, k);
  }

  // g can serve n bytes by splitting its free block b, at position k, into b and s; c is the new tiling.
  ghost predicate SplitPlan(g: State, n: nat, k: nat, b: nat, s: nat, c: map<nat, nat>, hi: nat) {
    && Ok(g, hi) && k < |g.free| && b == g.free[k] && b in g.cells && s == b + OVERHEAD + n
    && s !in g.cells && Joined(c, g.cells, b, s) && b in c && c[b] == n
    && s + OVERHEAD + SLACK <= End(g.cells, b) <= hi && c[s] == g.cells[b] - n - OVERHEAD
  }

  lemma PlanSplit(g: State, n: nat, hi: nat)
    requires Ok(g, hi) && Splits(g, n)
    ensures var k := FirstFit(g.cells, g.free, n);
      && k < |g.free| && g.free[k] in g.cells && g.cells[g.free[k]] >= n + OVERHEAD
      && SplitPlan(g, n, k, g.free[k], g.free[k] + OVERHEAD + n, Split(g.cells, g.free[k], n), hi)
      && Heap.Alloc(g, n) == State(Split(g.cells, g.free[k], n), g.free[k := g.free[k] + OVERHEAD + n],
          [g.free[k]] + g.used)
  {
    var b := g.free[FirstFit(g.cells, g.free, n)];
    assert b in g.free;
    SplitJoined(g.cells, b, n, hi);
    BlocksApart(g.cells, hi, b, b);
  }

  lemma SplitSmall(g: State, n: nat, k: nat, b: nat, s: nat, c: map<nat, nat>, hi: nat)
    requires SplitPlan(g, n, k, b, s, c, hi)
    ensures s == b + OVERHEAD + n && b in g.cells && s in c && b in c && c[b] == n && c[s] <= hi && s + OVERHEAD <= hi
      && b + OVERHEAD <= hi && n <= hi && c[s] == g.cells[b] - n - OVERHEAD
  {
  }

  // What TakeBlock needs to know when it splits.
  lemma SplitReady(m: seq<Byte>, m1: seq<Byte>, g: State, n: nat, k: nat, b: nat, s: nat, c: map<nat, nat>,
      rest: seq<nat>)
    requires |m1| == |m| < TWO64 && START + OVERHEAD <= |m| && SplitPlan(g, n, k, b, s, c, |m|)
    requires rest == g.free[..k] + g.free[k + 1..]
    requires Threaded(m1, g.cells, rest) && UsedIntact(m, m1, g.cells, g.used)
    ensures Threaded(Put(m1, s + 16, c[s]), c, rest) && Size(Put(m1, s + 16, c[s]), s) == c[s]
    ensures Tiled(c, |m|) && Ascending(rest) && s !in rest && forall o <- rest :: o in c
  {
    hide FromLE, Put, Linked, Threaded, BlocksKept, Tiled, Coalesced, Joined, Ok, UsedIntact;
    assert Tiled(g.cells, |m|) by { OkTiled(g, |m|); }
    SplitTiled(g.cells, c, b, s, |m|);
    SplitInsert(g, c, k, s, |m|);
    SplitSized(m, m1, g, c, k, s);
  }

  lemma OkTiled(g: State, hi: nat)
    requires Ok(g, hi)
    ensures Tiled(g.cells, hi)
  {
  }

  // The whole effect of a splitting allocation.
  lemma AllocSplitMemory(m: seq<Byte>, m1: seq<Byte>, m3: seq<Byte>, g: State, g': State, n: nat, k: nat, b: nat,
      s: nat,
                         c: map<nat, nat>, rest: seq<nat>)
    requires Represents(m, g) && |m1| == |m| && SplitPlan(g, n, k, b, s, c, |m|)
    requires rest == g.free[..k] + g.free[k + 1..] && forall o <- rest :: o in c
    requires Threaded(m1, g.cells, rest) && UsedIntact(m, m1, g.cells, g.used)
    requires InsertResult(Put(m1, s + 16, c[s]), m3, c, rest, s)
    requires g' == State(c, g.free[k := s], [b] + g.used) && Ok(g', |m|)
    requires forall o <- g.used :: o in g.cells && o in c && c[o] == g.cells[o]
    ensures |m3| == |m|
    ensures Word(Put(m3, b + 16, n), 8) != 0 ==> Word(Put(m3, b + 16, n), 8) + OVERHEAD <= |m|
    ensures PayloadsKept(m, PushFront(Put(m3, b + 16, n), b), g)
    ensures UsedPart(PushFront(Put(m3, b + 16, n), b), g')
    ensures Represents(PushFront(Put(m3, b + 16, n), b), g') <==> |g.free| > 1 || (Word(m1, s) == 0 && Word(m1, s + 8) == 0)
  {
    hide FromLE, Put, PushFront, Linked, Threaded, BlocksKept, Tiled, Coalesced, InsertResult, Ok, UsedIntact, Joined,
      Represents,
      UsedPart;
    RepresentsSize(m, g);
    SplitSmall(g, n, k, b, s, c, |m|);
    SplitInserted(m, m1, m3, g, c, k, s);
    SplitShrunk(m, m3, g, g', b);
    FinishAlloc(m, Put(m3, b + 16, n), g, g', b);
  }

  lemma RepresentsSize(m: seq<Byte>, g: State)
    requires Represents(m, g)
    ensures 40 == START + OVERHEAD <= |m| < 0x8000_0000 < TWO64
    ensures Ok(g, |m|) && (forall o <- g.free :: o in g.cells) && (forall o <- g.used :: o in g.cells)
  {
  }

  lemma PlanFits(g: State, n: nat, k: nat, b: nat, s: nat, c: map<nat, nat>, hi: nat)
    requires SplitPlan(g, n, k, b, s, c, hi)
    ensures k < |g.free| && b == g.free[k] && b in g.cells && b + OVERHEAD <= s && s + 16 <= End(g.cells, b)
  {
  }

  lemma StaleLinks(m: seq<Byte>, g: State, n: nat, k: nat, b: nat, s: nat, c: map<nat, nat>)
    requires Represents(m, g) && SplitPlan(g, n, k, b, s, c, |m|)
    ensures UnlinkOk(m, b) && Word(Unlink(m, 0, b), s) == Word(m, s) && Word(Unlink(m, 0, b), s + 8) == Word(m, s + 8)
  {
    hide Unlink, Word, Linked, Threaded, Tiled, Joined, Coalesced, Ok, Represents, UnlinkOk, SplitPlan;
    Unfolded(m, g);
    PlanFits(g, n, k, b, s, c, |m|);
    Removable(m, 0, g.free, k);
    UnlinkFreePayload(m, g.cells, g.free, k, s);
    UnlinkFreePayload(m, g.cells, g.free, k, s + 8);
  }

  lemma InsertedResult(m: seq<Byte>, m': seq<Byte>, cells: map<nat, nat>, free: seq<nat>, b: nat)
    requires b in cells && 8 <= |m| && forall o <- free :: o in cells
    requires free == [] ==> m' == Put(m, 0, b)
    requires free != [] ==> var (c, f) := Insert(cells, free, b); Threaded(m', c, f)
    requires free != [] ==> Frame(m, m', WithBlock(free, b))
    ensures InsertResult(m, m', cells, free, b)
  {
  }

  lemma CleanWhen(m: seq<Byte>, g: State, n: nat, k: nat, b: nat, s: nat)
    requires Represents(m, g) && Splits(g, n) && k == FirstFit(g.cells, g.free, n) && b == g.free[k]
      && s == b + OVERHEAD + n
    requires s + OVERHEAD <= |m|
    ensures CleanSplit(m, g, n) <==> |g.free| > 1 || (Word(m, s) == 0 && Word(m, s + 8) == 0)
  {
  }

  // The outcome of a splitting allocation, stated on the state before it.
  lemma SplitOutcome(m: seq<Byte>, m1: seq<Byte>, m3: seq<Byte>, g: State, g': State, n: nat, k: nat, b: nat, s: nat,
                     c: map<nat, nat>, others: seq<nat>)
    requires Represents(m, g) && SplitPlan(g, n, k, b, s, c, |m|) && others == g.free[..k] + g.free[k + 1..]
    requires UnlinkOk(m, b) && m1 == Unlink(m, 0, b) && Threaded(m1, g.cells, others)
      && UsedIntact(m, m1, g.cells, g.used)
    requires s in c && s + OVERHEAD <= |m| && (forall o <- others :: o in c)
      && InsertResult(Put(m1, s + 16, c[s]), m3, c, others, s)
    requires g' == State(c, g.free[k := s], [b] + g.used) && Ok(g', |m|)
    requires forall o <- g.used :: o in g.cells && o in c && c[o] == g.cells[o]
    ensures |m3| == |m| && b + OVERHEAD <= |m|
    ensures Word(Put(m3, b + 16, n), 8) != 0 ==> Word(Put(m3, b + 16, n), 8) + OVERHEAD <= |m|
    ensures PayloadsKept(m, PushFront(Put(m3, b + 16, n), b), g)
    ensures UsedPart(PushFront(Put(m3, b + 16, n), b), g')
    ensures Represents(PushFront(Put(m3, b + 16, n), b), g') <==> |g.free| > 1 || (Word(m, s) == 0 && Word(m, s + 8) == 0)
  {
    hide FromLE, Put, Unlink, PushFront, Linked, Threaded, Tiled, InsertResult, Ok, UsedIntact, Joined, Represents,
      SplitPlan,
      PayloadsKept, UnlinkOk, UsedPart;
    SplitSmall(g, n, k, b, s, c, |m|);
    StaleLinks(m, g, n, k, b, s, c);
    AllocSplitMemory(m, m1, m3, g, g', n, k, b, s, c, others);
  }

  lemma NoSplitIsClean(m: seq<Byte>, g: State, n: nat)
    requires Represents(m, g) && !Splits(g, n)
    ensures CleanSplit(m, g, n)
  {
  }

  lemma SplitsWhen(m: seq<Byte>, g: State, n: nat)
    requires Represents(m, g) && FirstFit(g.cells, g.free, n) < |g.free|
    ensures var b := g.free[FirstFit(g.cells, g.free, n)];
      b in g.cells && (Splits(g, n) <==> g.cells[b] >= n + OVERHEAD + SLACK)
  {
    assert g.free[FirstFit(g.cells, g.free, n)] in g.free;
  }

  lemma TakenSize(m: seq<Byte>, g: State, n: nat)
    requires Represents(m, g) && FirstFit(g.cells, g.free, n) < |g.free|
    ensures var b := g.free[FirstFit(g.cells, g.free, n)];
      b in g.cells && b + OVERHEAD <= |m| && UnlinkOk(m, b) && Size(Unlink(m, 0, b), b) == g.cells[b]
  {
    Taken(m, g, FirstFit(g.cells, g.free, n));
  }

  lemma PartReady(m: seq<Byte>, g: State, n: nat, b: nat) returns (k: nat, s: nat, c: map<nat, nat>, others: seq<nat>)
    requires Represents(m, g) && Splits(g, n) && b == g.free[FirstFit(g.cells, g.free, n)]
    ensures k < |g.free| && others == g.free[..k] + g.free[k + 1..] && SplitPlan(g, n, k, b, s, c, |m|)
    ensures Heap.Alloc(g, n) == State(c, g.free[k := s], [b] + g.used) && k == FirstFit(g.cells, g.free, n)
      && s == b + OVERHEAD + n
    ensures b in g.cells && UnlinkOk(m, b) && Threaded(Unlink(m, 0, b), g.cells, others)
      && UsedIntact(m, Unlink(m, 0, b), g.cells, g.used)
  {
    hide *;
    Unfolded(m, g);
    k := FirstFit(g.cells, g.free, n);
    PlanSplit(g, n, |m|);
    s, c, others := b + OVERHEAD + n, Split(g.cells, b, n), g.free[..k] + g.free[k + 1..];
    Taken(m, g, k);
  }

  lemma PartDone(m: seq<Byte>, m3: seq<Byte>, g: State, n: nat, k: nat, b: nat, s: nat, c: map<nat, nat>,
      others: seq<nat>)
    requires Represents(m, g) && Splits(g, n) && k == FirstFit(g.cells, g.free, n) && b == g.free[k]
      && s == b + OVERHEAD + n
    requires SplitPlan(g, n, k, b, s, c, |m|) && others == g.free[..k] + g.free[k + 1..]
    requires UnlinkOk(m, b) && Threaded(Unlink(m, 0, b), g.cells, others)
      && UsedIntact(m, Unlink(m, 0, b), g.cells, g.used)
    requires s in c && s + OVERHEAD <= |m| && (forall o <- others :: o in c)
    requires InsertResult(Put(Unlink(m, 0, b), s + 16, c[s]), m3, c, others, s)
    requires Heap.Alloc(g, n) == State(c, g.free[k := s], [b] + g.used)
    ensures |m3| == |m| && b + OVERHEAD <= |m|
    ensures Word(Put(m3, b + 16, n), 8) != 0 ==> Word(Put(m3, b + 16, n), 8) + OVERHEAD <= |m|
    ensures PayloadsKept(m, PushFront(Put(m3, b + 16, n), b), g)
    ensures UsedPart(PushFront(Put(m3, b + 16, n), b), Heap.Alloc(g, n))
    ensures Represents(PushFront(Put(m3, b + 16, n), b), Heap.Alloc(g, n)) <==> CleanSplit(m, g, n)
  {
    hide FromLE, Put, Unlink, PushFront, Linked, Threaded, Tiled, InsertResult, UsedIntact, Joined, PayloadsKept,
      CleanSplit,
      Heap.Alloc, UsedPart;
    RepresentsSize(m, g);
    AllocFacts(g, n, |m|);
    SplitSmall(g, n, k, b, s, c, |m|);
    CleanWhen(m, g, n, k, b, s);
    hide Represents, SplitPlan, Ok, FirstFit, Splits;
    SplitOutcome(m, Unlink(m, 0, b), m3, g, Heap.Alloc(g, n), n, k, b, s, c, others);
  }

  lemma LinksOk(m: seq<Byte>, b: nat)
    requires UnlinkOk(m, b)
    ensures b + OVERHEAD <= |m|
    ensures Prev(m, b) != 0 ==> Prev(m, b) + OVERHEAD <= |m|
    ensures Next(m, b) != 0 ==> Next(m, b) + OVERHEAD <= |m|
  {
  }

  // --- walking the free list, and the fresh buffer ------------------------------------------------------

  lemma FreeEntry(m: seq<Byte>, g: State, k: nat)
    requires Represents(m, g)
    ensures Word(m, 0) == At(g.free, 0) && (k >= |g.free| ==> At(g.free, k) == 0)
    ensures k < |g.free| ==>
      var b := g.free[k];
      && At(g.free, k) == b && b != 0 && b + OVERHEAD <= |m| && b in g.cells
      && Size(m, b) == g.cells[b] && Next(m, b) == At(g.free, k + 1)
  {
    if k < |g.free| {
      assert g.free[k] in g.free;
      assert Next(m, g.free[k]) == At(g.free, k + 1);
    }
  }

  // The first k free blocks are too small.
  ghost predicate TooSmall(g: State, n: nat, k: nat) {
    k <= |g.free| && forall i :: 0 <= i < k ==> g.free[i] in g.cells && g.cells[g.free[i]] < n
  }

  lemma OneTooSmall(g: State, n: nat, k: nat)
    requires TooSmall(g, n, k) && k < |g.free| && g.free[k] in g.cells && g.cells[g.free[k]] < n
    ensures TooSmall(g, n, k + 1)
  {
  }

  lemma NoneTooSmall(g: State, n: nat)
    ensures TooSmall(g, n, 0)
  {
  }

  // The block that is handed out.
  lemma HandedOut(g: State, hi: nat, n: nat, k: nat)
    requires Ok(g, hi) && (forall o <- g.free :: o in g.cells) && FirstFit(g.cells, g.free, n) == k < |g.free|
    ensures |Heap.Alloc(g, n).used| > 0 && Heap.Alloc(g, n).used[0] == g.free[k] && OVERHEAD == 24
    ensures TakenFor(g, Heap.Alloc(g, n), n, Heap.Alloc(g, n).used[0])
  {
    hide Ok, Heap.Alloc, FirstFit, TakenFor;
    AllocFacts(g, n, hi);
    AllocTakes(g, n, hi);
  }

  lemma FitsOrNot(g: State, hi: nat, n: nat, k: nat)
    requires Ok(g, hi) && TooSmall(g, n, k)
    requires k < |g.free| ==> g.free[k] in g.cells && g.cells[g.free[k]] >= n
    ensures (forall o <- g.free :: o in g.cells) && FirstFit(g.cells, g.free, n) == k
    ensures k == |g.free| <==> forall o <- g.free :: o in g.cells && g.cells[o] < n
  {
    if k < |g.free| {
      assert g.free[k] in g.free;
      FitsAt(g.cells, g.free, n, k);
    }
  }

  // What the constructor writes into a new file of |m| bytes.
  function Format(m: seq<Byte>): (m': seq<Byte>)
    requires START + OVERHEAD <= |m|
    ensures |m'| == |m|
  {
    var m1 := Put(Put(m, 0, START), 8, 0);
    Put(Put(Put(m1, START + 16, |m| - START - OVERHEAD), START, 0), START + 8, 0)
  }

  lemma FormatWord(m: seq<Byte>, x: nat)
    requires START + OVERHEAD <= |m| < TWO64 && x in {0, 8, 16, 24, 32}
    ensures Word(Format(m), x) == if x == 0 then START else if x == 32 then |m| - START - OVERHEAD else 0
  {
    hide Put, Word;
    var m1 := Put(m, 0, START);
    var m2 := Put(m1, 8, 0);
    var m3 := Put(m2, START + 16, |m| - START - OVERHEAD);
    var m4 := Put(m3, START, 0);
    PutAt(m, 0, START, x);
    PutAt(m1, 8, 0, x);
    PutAt(m2, START + 16, |m| - START - OVERHEAD, x);
    PutAt(m3, START, 0, x);
    PutAt(m4, START + 8, 0, x);
  }

  lemma FormatRest(m: seq<Byte>)
    requires START + OVERHEAD <= |m| < TWO64
    ensures forall i :: START + OVERHEAD <= i < |m| ==> Format(m)[i] == m[i]
  {
  }

  lemma FormatRepresents(m: seq<Byte>)
    requires START + OVERHEAD <= |m| < 0x8000_0000
    ensures Represents(Format(m), Initial(|m|))
  {
    hide Put, Format, FromLE;
    var m', l := Format(m), [START];
    InitialOk(|m|);
    FormatWord(m, 0);
    FormatWord(m, 8);
    FormatWord(m, 16);
    FormatWord(m, 24);
    FormatWord(m, 32);
    assert l[0] == START;
    assert Prev(m', l[0]) == 0 && Next(m', l[0]) == 0;
  }

  // --- payload bytes -------------------------------------------------------------------------------------

  // Writing data at address a, as a client does with memory it was handed.
  function Fill(m: seq<Byte>, a: nat, data: seq<Byte>): (m': seq<Byte>)
    requires a + |data| <= |m|
    ensures |m'| == |m|
  {
    m[..a] + data + m[a + |data|..]
  }

  lemma FillSlice(m: seq<Byte>, a: nat, data: seq<Byte>, x: nat, y: nat)
    requires a + |data| <= |m| && x <= y <= |m| && (y <= a || a + |data| <= x)
    ensures Fill(m, a, data)[x..y] == m[x..y]
    ensures Fill(m, a, data)[a..a + |data|] == data
  {
  }

  lemma FillBlock(m: seq<Byte>, cells: map<nat, nat>, o: nat, a: nat, data: seq<Byte>, p: nat)
    requires Tiled(cells, |m|) && o in cells && p in cells && o + OVERHEAD <= a && a + |data| <= End(cells, o)
    ensures p + OVERHEAD <= |m| && a + |data| <= |m| && Fill(m, a, data)[p..p + OVERHEAD] == m[p..p + OVERHEAD]
    ensures p != o ==> PayloadKept(m, Fill(m, a, data), cells, p)
  {
    hide Fill, Tiled;
    BlocksApart(cells, |m|, o, o);
    BlocksApart(cells, |m|, p, p);
    BlocksApart(cells, |m|, o, p);
    FillSlice(m, a, data, p, p + OVERHEAD);
    if p != o { FillSlice(m, a, data, p + OVERHEAD, End(cells, p)); }
  }

  // Writing inside the payload of block o leaves the list heads, all headers and all other payloads alone.
  lemma FillElsewhere(m: seq<Byte>, cells: map<nat, nat>, o: nat, a: nat, data: seq<Byte>)
    requires Tiled(cells, |m|) && o in cells && o + OVERHEAD <= a && a + |data| <= End(cells, o)
    ensures 16 <= |m| && a + |data| <= |m| && Fill(m, a, data)[0..8] == m[0..8] && Fill(m, a, data)[8..16] == m[8..16]
    ensures forall p <- cells :: p + OVERHEAD <= |m| && Fill(m, a, data)[p..p + OVERHEAD] == m[p..p + OVERHEAD]
    ensures forall p <- cells :: p != o ==> PayloadKept(m, Fill(m, a, data), cells, p)
  {
    hide Fill, Tiled, PayloadKept;
    FillBlock(m, cells, o, a, data, o);
    BlocksApart(cells, |m|, o, o);
    FillSlice(m, a, data, 0, 8);
    FillSlice(m, a, data, 8, 16);
    forall p | p in cells
      ensures p + OVERHEAD <= |m| && Fill(m, a, data)[p..p + OVERHEAD] == m[p..p + OVERHEAD]
      ensures p != o ==> PayloadKept(m, Fill(m, a, data), cells, p)
    {
      FillBlock(m, cells, o, a, data, p);
    }
  }

  // A client that stays inside the payload of a block it holds damages nothing.
  lemma FillRepresents(m: seq<Byte>, g: State, o: nat, a: nat, data: seq<Byte>)
    requires Represents(m, g) && o in g.cells && o + OVERHEAD <= a && a + |data| <= End(g.cells, o)
    ensures a + |data| <= |m| && Represents(Fill(m, a, data), g)
  {
    hide Fill, Linked, Word, Tiled, Ok, Threaded, PayloadKept, Represents;
    Unfolded(m, g);
    FillElsewhere(m, g.cells, o, a, data);
    var m' := Fill(m, a, data);
    ThreadedKept(m, m', g.cells, g.free);
    ListKept(m, m', 8, g.used);
    SizesKept(m, m', g.used);
    Assembled(m', g);
  }

  lemma UnfoldedUsed(m: seq<Byte>, g: State)
    requires UsedPart(m, g)
    ensures Ok(g, |m|) && Tiled(g.cells, |m|) && Linked(m, 8, g.used)
    ensures forall o <- g.used :: o in g.cells && o + OVERHEAD <= |m| && Size(m, o) == g.cells[o]
  {
    hide Linked, Coalesced, Distinct, Ascending, Spaced, Word;
  }

  lemma AssembledUsed(m: seq<Byte>, g: State)
    requires Ok(g, |m|) && Linked(m, 8, g.used)
    requires forall o <- g.used :: o in g.cells && o + OVERHEAD <= |m| && Size(m, o) == g.cells[o]
    ensures UsedPart(m, g)
  {
    hide Linked, Ok, Word;
  }

  lemma FillUsed(m: seq<Byte>, g: State, o: nat, a: nat, data: seq<Byte>)
    requires UsedPart(m, g) && o in g.cells && o + OVERHEAD <= a && a + |data| <= End(g.cells, o)
    ensures a + |data| <= |m| && UsedPart(Fill(m, a, data), g)
    ensures forall p <- g.used :: p != o ==> PayloadKept(m, Fill(m, a, data), g.cells, p)
  {
    hide Fill, Linked, Word, Tiled, Ok, PayloadKept, UsedPart;
    UnfoldedUsed(m, g);
    FillElsewhere(m, g.cells, o, a, data);
    var m' := Fill(m, a, data);
    ListKept(m, m', 8, g.used);
    SizesKept(m, m', g.used);
    AssembledUsed(m', g);
  }

  lemma FillBack(m: seq<Byte>, a: nat, data: seq<Byte>)
    requires a + |data| <= |m|
    ensures Fill(Fill(m, a, data), a, m[a..a + |data|]) == m
  {
  }

  // ... and mends nothing.
  lemma FillRepresentsWhen(m: seq<Byte>, g: State, o: nat, a: nat, data: seq<Byte>)
    requires o in g.cells && o + OVERHEAD <= a && a + |data| <= End(g.cells, o) && a + |data| <= |m|
    ensures Represents(Fill(m, a, data), g) <==> Represents(m, g)
  {
    hide Fill, Represents;
    if Represents(m, g) { FillRepresents(m, g, o, a, data); }
    if Represents(Fill(m, a, data), g) {
      FillBack(m, a, data);
      FillRepresents(Fill(m, a, data), g, o, a, m[a..a + |data|]);
    }
  }

  // What a client's write at the start of its payload amounts to.
  lemma PayloadWritten(m: seq<Byte>, g: State, o: nat, data: seq<Byte>)
    requires UsedPart(m, g) && o in g.used && o in g.cells && |data| <= g.cells[o]
    ensures o + OVERHEAD + |data| <= |m|
    ensures var m' := Fill(m, o + OVERHEAD, data);
      && UsedPart(m', g) && (Represents(m', g) <==> Represents(m, g)) && (Readable(m') <==> Readable(m))
      && m'[o + OVERHEAD..o + OVERHEAD + |data|] == data
      && forall p <- g.used :: p != o ==> PayloadKept(m, m', g.cells, p)
  {
    hide Represents, UsedPart, PayloadKept, Fill, Readable;
    var a := o + OVERHEAD;
    FillUsed(m, g, o, a, data);
    FillRepresentsWhen(m, g, o, a, data);
    FillSlice(m, a, data, 0, 0);
    ReadableWhen(m, g);
    ReadableWhen(Fill(m, a, data), g);
  }

  lemma SizesKept(m: seq<Byte>, m': seq<Byte>, u: seq<nat>)
    requires |m| == |m'| && forall o <- u :: o + OVERHEAD <= |m| && m'[o..o + OVERHEAD] == m[o..o + OVERHEAD]
    ensures forall o <- u :: Size(m', o) == Size(m, o)
  {
    forall o | o in u ensures Size(m', o) == Size(m, o) { SliceWord(m, m', o, o + OVERHEAD, o + 16); }
  }

  // Releasing a block does not touch its payload.
  lemma FreedPayload(m: seq<Byte>, m': seq<Byte>, g: State, k: nat)
    requires Represents(m, g) && k < |g.used| && UnlinkOk(m, g.used[k])
    requires g.used[k] in g.cells && forall o <- g.free :: o in g.cells
    requires InsertResult(Unlink(m, 8, g.used[k]), m', g.cells, g.free, g.used[k])
    ensures PayloadKept(m, m', g.cells, g.used[k])
  {
    hide Unlink, FromLE, Put, Linked, Threaded, Tiled, Insert, WithBlock, Detached, InsertResult, Ok;
    var b := g.used[k];
    var m1, l := Unlink(m, 8, b), WithBlock(g.free, b);
    UnlinkUsed(m, g, k);
    UnlinkUsedKept(m, g, k);
    DetachedFacts(m1, g.cells, g.free, Without(g.used, b), b);
    InsertThreads(m1, m', g.cells, g.free, b);
    BlockClear(g.cells, |m|, l, b);
    assert b in g.used;
    var s := m'[b + OVERHEAD..End(g.cells, b)];
  }

  lemma FreeStart(m: seq<Byte>, g: State, b: nat) returns (k: nat)
    requires Represents(m, g) && b in g.used
    ensures k < |g.used| && g.used[k] == b && UnlinkOk(m, b)
    ensures 16 <= |m| < TWO64 && Tiled(g.cells, |m|) && Threaded(Unlink(m, 8, b), g.cells, g.free) && Ascending(g.free)
    ensures b in g.cells && b !in g.free && (forall o <- g.free :: o in g.cells)
    ensures Size(Unlink(m, 8, b), b) == g.cells[b]
  {
    k :| 0 <= k < |g.used| && g.used[k] == b;
    UnlinkUsed(m, g, k);
    hide Unlink, Linked, Threaded, Tiled;
  }

  lemma FreeEnd(m: seq<Byte>, m': seq<Byte>, g: State, k: nat)
    requires Represents(m, g) && k < |g.used| && UnlinkOk(m, g.used[k]) && 8 <= |m|
    requires g.used[k] in g.cells && forall o <- g.free :: o in g.cells
    requires InsertResult(Unlink(m, 8, g.used[k]), m', g.cells, g.free, g.used[k]) && |m'| == |m|
    ensures Represents(m', Heap.Free(g, g.used[k])) && PayloadsKept(m, m', Heap.Free(g, g.used[k]))
    ensures PayloadKept(m, m', g.cells, g.used[k])
  {
    hide *;
    FreeRepresents(m, m', g, k);
    FreedPayload(m, m', g, k);
  }
}
