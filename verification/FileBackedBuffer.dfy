// The first-fit allocator over one flat byte buffer, with two intrusive doubly linked lists
// threaded through the block headers.
module FileBackedBuffers {
  import opened Words
  import opened Heap
  import opened Links
  import opened HeapMemory

  class FileBackedBuffer {
    const mem: array<Byte>

    method Load(a: nat) returns (v: nat)
      requires a + 8 <= mem.Length
      ensures v == Word(mem[..], a)
    {
      assert mem[..][a..a + 8] == mem[a..a + 8];
      v := FromLE(mem[a..a + 8]);
    }

    method Store(a: nat, v: nat)
      requires a + 8 <= mem.Length && v < TWO64
      modifies mem
      ensures mem[..] == Put(old(mem[..]), a, v)
    {
      var bytes := ToLE(v, 8);
      forall i | 0 <= i < 8 { mem[a + i] := bytes[i]; }
    }

    method RemoveBlock(head: nat, b: nat)
      requires head + 8 <= mem.Length && b + OVERHEAD <= mem.Length
      requires Prev(mem[..], b) != 0 ==> Prev(mem[..], b) + OVERHEAD <= mem.Length
      requires Next(mem[..], b) != 0 ==> Next(mem[..], b) + OVERHEAD <= mem.Length
      modifies mem
      ensures mem[..] == Unlink(old(mem[..]), head, b)
    {
      WordRange(mem[..], b);
      WordRange(mem[..], b + 8);
      var prev := Load(b);
      var next := Load(b + 8);
      if prev != 0 { Store(prev + 8, next); } else { Store(head, next); }
      if next != 0 { Store(next, prev); }
      Store(b, 0);
      Store(b + 8, 0);
    }

    // What joining with the neighbours depends on.
    lemma Neighbours(m: seq<Byte>, cells: map<nat, nat>, l: seq<nat>, k: nat)
      requires Threaded(m, cells, l) && k < |l|
      ensures l[k] + OVERHEAD <= |m| && (At(l, k - 1) != 0 ==> At(l, k - 1) + OVERHEAD <= |m|)
      ensures JoinsLeft(cells, l, k) <==> At(l, k - 1) != 0 && At(l, k - 1) + OVERHEAD + Size(m, At(l, k - 1)) == Next(m, At(l, k - 1))
      ensures JoinsRight(cells, l, k) <==> At(l, k + 1) != 0 && l[k] + OVERHEAD + Size(m, l[k]) == Next(m, l[k])
    {
      assert l[k] in l && (k > 0 ==> l[k - 1] in l) && (k + 1 < |l| ==> l[k + 1] in l);
      assert Next(m, l[k]) == At(l, k + 1);
      if k > 0 { assert Next(m, l[k - 1]) == At(l, k); }
    }

    // Whether the block just linked between prev and next touches either of them.
    method Contiguous(b: nat, prev: nat, next: nat, ghost cells: map<nat, nat>, ghost l: seq<nat>, ghost k: nat)
        returns (left: bool, right: bool)
      requires Threaded(mem[..], cells, l) && k < |l| && l[k] == b && prev == At(l, k - 1) && next == At(l, k + 1)
      ensures left == JoinsLeft(cells, l, k) && right == JoinsRight(cells, l, k)
    {
      hide *;
      Neighbours(mem[..], cells, l, k);
      left, right := false, false;
      if prev != 0 {
        var prevSize := LoadSize(prev);
        var prevNext := LoadNext(prev);
        left := prev + OVERHEAD + prevSize == prevNext;
      }
      if next != 0 {
        var size := LoadSize(b);
        var after := LoadNext(b);
        right := b + OVERHEAD + size == after;
      }
    }

    method MergeBoth(p: nat, b: nat, n: nat, ghost cells: map<nat, nat>, ghost l: seq<nat>, ghost k: nat)
      requires mem.Length < TWO64
      requires Threaded(mem[..], cells, l) && Tiled(cells, mem.Length) && 0 < k && k + 1 < |l|
      requires l[k - 1] == p && l[k] == b && l[k + 1] == n
      requires JoinsLeft(cells, l, k) && JoinsRight(cells, l, k)
      modifies mem
      ensures mem[..] == AbsorbBoth(old(mem[..]), l, k)
    {
      hide Put, Tiled, Unlink, FromLE, Spaced;
      ghost var m := mem[..];
      assert p in l && b in l && n in l;
      RemoveNext(m, l, k - 1);
      StillLinked(m, l, k);
      RemoveBlock(0, b);
      RemoveBlock(0, n);
      BothBounds(m, cells, l, k);
      Grow(p, b, n);
    }

    method MergeOne(p: nat, q: nat, ghost cells: map<nat, nat>, ghost l: seq<nat>, ghost k: nat)
      requires mem.Length < TWO64
      requires Threaded(mem[..], cells, l) && Tiled(cells, mem.Length) && k + 1 < |l|
      requires l[k] == p && l[k + 1] == q && JoinsRight(cells, l, k)
      modifies mem
      ensures mem[..] == Absorb(old(mem[..]), l, k)
    {
      hide Put, Tiled, Unlink, FromLE, Spaced;
      ghost var m := mem[..];
      assert p in l && q in l;
      RemoveNext(m, l, k);
      RemoveBlock(0, q);
      AbsorbBounds(m, cells, l, k);
      Extend(p, q);
    }

    // The last part of insert_block_to_free_list: b has just been linked between prev and next.
    method Coalesce(b: nat, prev: nat, next: nat, ghost cells: map<nat, nat>, ghost l: seq<nat>, ghost k: nat)
      requires mem.Length < TWO64
      requires Threaded(mem[..], cells, l) && Tiled(cells, mem.Length)
      requires k < |l| && l[k] == b && prev == At(l, k - 1) && next == At(l, k + 1)
      modifies mem
      ensures mem[..] == Merged(old(mem[..]), cells, l, k)
    {
      hide Tiled, Absorb, AbsorbBoth, Linked, Spaced;
      var left, right := Contiguous(b, prev, next, cells, l, k);
      if left && right {
        MergeBoth(prev, b, next, cells, l, k);
      } else if left {
        MergeOne(prev, b, cells, l, k - 1);
      } else if right {
        MergeOne(b, next, cells, l, k);
      }
    }

    method Extend(p: nat, q: nat)
      requires p + OVERHEAD <= mem.Length && q + OVERHEAD <= mem.Length
      requires Size(mem[..], p) + (OVERHEAD + Size(mem[..], q)) < TWO64
      modifies mem
      ensures var m := old(mem[..]); mem[..] == Put(m, p + 16, Size(m, p) + (OVERHEAD + Size(m, q)))
    {
      hide Put, FromLE, Word;
      var a := LoadSize(p);
      var c := LoadSize(q);
      Store(p + 16, a + (OVERHEAD + c));
    }

    method Grow(p: nat, q: nat, r: nat)
      requires p + OVERHEAD <= mem.Length && q + OVERHEAD <= mem.Length && r + OVERHEAD <= mem.Length
      requires Size(mem[..], p) + ((OVERHEAD + Size(mem[..], q)) + (OVERHEAD + Size(mem[..], r))) < TWO64
      modifies mem
      ensures var m := old(mem[..]);
        mem[..] == Put(m, p + 16, Size(m, p) + ((OVERHEAD + Size(m, q)) + (OVERHEAD + Size(m, r))))
    {
      hide Put, FromLE, Word;
      var a := LoadSize(p);
      var c := LoadSize(q);
      var d := LoadSize(r);
      Store(p + 16, a + ((OVERHEAD + c) + (OVERHEAD + d)));
    }

    lemma FreeHead(m: seq<Byte>, cells: map<nat, nat>, free: seq<nat>)
      requires Threaded(m, cells, free) && Tiled(cells, |m|)
      ensures 8 <= |m| && Linked(m, 0, free) && (Word(m, 0) == 0 <==> |free| == 0)
      ensures (forall o <- free :: o in cells && o != 0) && forall i :: 0 <= i < |free| ==> free[i] != 0
    {
    }

    // insert_block_to_free_list. On an empty list the links of b are not written.
    method InsertFree(b: nat, ghost cells: map<nat, nat>, ghost free: seq<nat>)
      requires mem.Length < TWO64 && Tiled(cells, mem.Length)
      requires Threaded(mem[..], cells, free) && Ascending(free)
      requires b in cells && b !in free && b + OVERHEAD <= mem.Length && Size(mem[..], b) == cells[b]
      modifies mem
      ensures free == [] ==> mem[..] == Put(old(mem[..]), 0, b)
      ensures free != [] ==> var (c, f) := Insert(cells, free, b); Threaded(mem[..], c, f)
      ensures free != [] ==> Frame(old(mem[..]), mem[..], WithBlock(free, b))
    {
      hide Put, Tiled, Ascending, LinkIn, Spaced, FromLE, Frame, Insert;
      ghost var m := mem[..];
      FreeHead(m, cells, free);
      var first := Load(0);
      if first == 0 {
        Store(0, b);
        return;
      }
      var prev, next := FindGap(b, free);
      Link(b, prev, next);
      ghost var m1, k, l := mem[..], Position(free, b), WithBlock(free, b);
      assert m1 == Inserted(m, free, b);
      InsertedThreaded(m, cells, free, b);
      InsertedFrame(m, free, b);
      Coalesce(b, prev, next, cells, l, k);
      MergedThreaded(m1, cells, free, b);
      MergedFrame(m1, cells, l, k);
      FrameTrans(m, m1, mem[..], l);
    }

    method Link(b: nat, prev: nat, next: nat)
      requires b + OVERHEAD <= mem.Length < TWO64 && prev + OVERHEAD <= mem.Length && next + OVERHEAD <= mem.Length
      modifies mem
      ensures mem[..] == LinkIn(old(mem[..]), b, prev, next)
    {
      hide Put;
      Store(b, prev);
      Store(b + 8, next);
      if prev != 0 { Store(prev + 8, b); } else { Store(0, b); }
      if next != 0 { Store(next, b); }
    }

    // Where b belongs in the non-empty free list l.
    method FindGap(b: nat, ghost l: seq<nat>) returns (prev: nat, next: nat)
      requires Linked(mem[..], 0, l) && l != [] && Ascending(l) && b !in l && forall i :: 0 <= i < |l| ==> l[i] != 0
      ensures prev == At(l, Position(l, b) - 1) && next == At(l, Position(l, b))
    {
      var curr := Load(0);
      ghost var i := 0;
      while true
        invariant i < |l| && curr == l[i]
        invariant forall j :: 0 <= j < i ==> l[j] < b
        decreases |l| - i
      {
        if curr > b { break; }
        assert Next(mem[..], l[i]) == At(l, i + 1);
        var after := Load(curr + 8);
        if after == 0 { break; }
        assert l[i] in l;
        curr, i := after, i + 1;
      }
      assert Next(mem[..], l[i]) == At(l, i + 1) && Prev(mem[..], l[i]) == At(l, i - 1);
      assert l[i] in l;
      if curr < b {
        var after := Load(curr + 8);
        assert after == 0;
        Gap(l, b, i + 1);
        prev, next := curr, after;
      } else {
        var before := Load(curr);
        assert before == 0 || before < b;
        Gap(l, b, i);
        prev, next := before, curr;
      }
    }

    // --- the public operations --------------------------------------------------------------------

    ghost var h: State

    ghost predicate Valid()
      reads this, mem
    {
      Represents(mem[..], h)
    }

    lemma ValidIs()
      requires Valid()
      ensures Represents(mem[..], h)
    {
      hide Represents;
    }

    lemma ValidWhen()
      ensures Valid() <==> Represents(mem[..], h)
    {
      hide Represents;
    }

    lemma ValidNow()
      requires Represents(mem[..], h)
      ensures Valid()
    {
      hide Represents;
    }

    // The part of the constructor that formats a new file of hi bytes.
    constructor (hi: nat)
      requires START + OVERHEAD <= hi < 0x8000_0000
      ensures Valid() && fresh(mem) && mem.Length == hi && h == Initial(hi)
      ensures forall i :: START + OVERHEAD <= i < hi ==> mem[i] == 0
    {
      mem := new Byte[hi](_ => 0);
      h := Initial(hi);
      new;
      ghost var m := mem[..];
      Initialise();
      FormatRepresents(m);
      FormatRest(m);
    }

    method Initialise()
      requires START + OVERHEAD <= mem.Length < TWO64
      modifies mem
      ensures mem[..] == Format(old(mem[..]))
    {
      hide Put;
      Store(0, START);
      Store(8, 0);
      Store(START + 16, mem.Length - START - OVERHEAD);
      Store(START, 0);
      Store(START + 8, 0);
    }

    method PushUsed(b: nat)
      requires 16 <= mem.Length < TWO64 && b + OVERHEAD <= mem.Length
      requires Word(mem[..], 8) != 0 ==> Word(mem[..], 8) + OVERHEAD <= mem.Length
      modifies mem
      ensures mem[..] == PushFront(old(mem[..]), b)
    {
      hide Put, FromLE;
      WordRange(mem[..], 8);
      var first := Load(8);
      if first != 0 { Store(first, b); }
      Store(b, 0);
      Store(b + 8, first);
      Store(8, b);
    }

    // free: the block goes from the used list to the free list; no payload is touched.
    method Free(pointer: nat)
      requires Valid() && pointer >= OVERHEAD && pointer - OVERHEAD in h.used
      modifies this, mem
      ensures old(forall o <- h.free :: o in h.cells) && old(pointer - OVERHEAD in h.cells)
      ensures h == Heap.Free(old(h), pointer - OVERHEAD)
      ensures PayloadsKept(old(mem[..]), mem[..], h)
        && PayloadKept(old(mem[..]), mem[..], old(h.cells), pointer - OVERHEAD)
      ensures Valid()
    {
      hide *;
      ghost var m, g := mem[..], h;
      ValidIs();
      var b := pointer - OVERHEAD;
      ghost var k := FreeStart(m, g, b);
      LinksOk(m, b);
      Release(b, m, g);
      FreeEnd(m, mem[..], g, k);
      h := Heap.Free(g, b);
      ValidNow();
    }

    method Release(b: nat, ghost m: seq<Byte>, ghost g: State)
      requires mem[..] == m && 16 <= |m| < TWO64 && UnlinkOk(m, b)
      requires Tiled(g.cells, |m|) && Threaded(Unlink(m, 8, b), g.cells, g.free) && Ascending(g.free)
      requires b in g.cells && b !in g.free && forall o <- g.free :: o in g.cells
      requires Size(Unlink(m, 8, b), b) == g.cells[b]
      modifies mem
      ensures InsertResult(Unlink(m, 8, b), mem[..], g.cells, g.free, b) && mem.Length == |m|
    {
      hide *;
      LinksOk(m, b);
      RemoveBlock(8, b);
      InsertFree(b, g.cells, g.free);
      InsertedResult(Unlink(m, 8, b), mem[..], g.cells, g.free, b);
    }

    // The split inside alloc, up to the insertion: the split-off block gets its size.
    method SizeSplit(split: nat, rest: nat, ghost m: seq<Byte>, ghost m1: seq<Byte>, ghost g: State, ghost n: nat,
        ghost k: nat,
        ghost b: nat, ghost c: map<nat, nat>, ghost others: seq<nat>)
      requires mem.Length < TWO64 && START + OVERHEAD <= mem.Length && |m| == mem.Length
        && SplitPlan(g, n, k, b, split, c, mem.Length)
      requires split in c && rest == c[split] && split + OVERHEAD <= mem.Length && rest < TWO64
      requires others == g.free[..k] + g.free[k + 1..] && mem[..] == m1
      requires Threaded(m1, g.cells, others) && UsedIntact(m, m1, g.cells, g.used)
      modifies mem
      ensures mem[..] == Put(m1, split + 16, c[split])
      ensures Threaded(mem[..], c, others) && Size(mem[..], split) == c[split]
      ensures Tiled(c, mem.Length) && Ascending(others) && split !in others && forall o <- others :: o in c
    {
      hide Put, Unlink, FromLE, Represents, Threaded, Linked, Tiled, Ok, UsedIntact, PushFront, Split, SplitPlan,
        Insert,
        InsertResult, PayloadsKept, FirstFit, Splits, Heap.Alloc, Ascending, Coalesced, Joined, Frame, WithBlock,
            Position,
            CleanSplit, UnlinkOk, ToLE, Distinct;
      SplitReady(m, m1, g, n, k, b, split, c, others);
      Store(split + 16, rest);
    }

    // The split inside alloc: b, just taken off the free list, gives up everything past n bytes.
    method SplitBlock(b: nat, size: nat, n: nat, ghost m: seq<Byte>, ghost m1: seq<Byte>, ghost g: State, ghost k: nat,
        ghost s: nat, ghost c: map<nat, nat>, ghost others: seq<nat>)
        returns (ghost m3: seq<Byte>)
      requires Represents(m, g) && |m| == mem.Length && SplitPlan(g, n, k, b, s, c, |m|)
        && others == g.free[..k] + g.free[k + 1..]
      requires mem[..] == m1 && b in g.cells && size == g.cells[b]
      requires Threaded(m1, g.cells, others) && UsedIntact(m, m1, g.cells, g.used)
      modifies mem
      ensures s in c && s + OVERHEAD <= |m| && b + OVERHEAD <= |m3| && forall o <- others :: o in c
      ensures InsertResult(Put(m1, s + 16, c[s]), m3, c, others, s) && mem[..] == Put(m3, b + 16, n)
    {
      hide Put, Unlink, FromLE, Represents, Threaded, Linked, Tiled, Ok, UsedIntact, PushFront, Split, SplitPlan,
        Insert,
        InsertResult, PayloadsKept, FirstFit, Splits, Heap.Alloc, Ascending, Coalesced, Joined, Frame, WithBlock,
            Position,
            CleanSplit, UnlinkOk, ToLE, Distinct;
      RepresentsSize(m, g);
      SplitSmall(g, n, k, b, s, c, mem.Length);
      var split := b + OVERHEAD + n;
      SizeSplit(split, size - n - OVERHEAD, m, m1, g, n, k, b, c, others);
      ghost var m2 := mem[..];
      InsertFree(split, c, others);
      m3 := mem[..];
      InsertedResult(m2, m3, c, others, s);
      Store(b + 16, n);
    }

    // The splitting branch of alloc.
    method TakePart(b: nat, size: nat, n: nat, ghost m: seq<Byte>, ghost g: State)
      requires Represents(m, g) && |m| == mem.Length && Splits(g, n) && b == g.free[FirstFit(g.cells, g.free, n)]
      requires UnlinkOk(m, b) && mem[..] == Unlink(m, 0, b) && size == g.cells[b]
      modifies mem
      ensures Word(mem[..], 8) != 0 ==> Word(mem[..], 8) + OVERHEAD <= mem.Length
      ensures UsedPart(PushFront(mem[..], b), Heap.Alloc(g, n))
      ensures Represents(PushFront(mem[..], b), Heap.Alloc(g, n)) <==> CleanSplit(m, g, n)
      ensures PayloadsKept(m, PushFront(mem[..], b), g)
    {
      hide *;
      ghost var k, s, c, others := PartReady(m, g, n, b);
      ghost var m3 := SplitBlock(b, size, n, m, mem[..], g, k, s, c, others);
      PartDone(m, m3, g, n, k, b, s, c, others);
    }

    // The part of alloc that runs once a block that fits has been found.
    method TakeBlock(b: nat, n: nat, ghost m: seq<Byte>, ghost g: State)
      requires Represents(m, g) && mem[..] == m && FirstFit(g.cells, g.free, n) < |g.free|
        && b == g.free[FirstFit(g.cells, g.free, n)]
      modifies mem
      ensures Represents(mem[..], Heap.Alloc(g, n)) <==> CleanSplit(m, g, n)
      ensures UsedPart(mem[..], Heap.Alloc(g, n)) && PayloadsKept(m, mem[..], g)
    {
      hide *;
      RepresentsSize(m, g);
      SplitsWhen(m, g, n);
      TakenSize(m, g, n);
      var size := Detach(b, n, m, g);
      if size >= n + OVERHEAD + SLACK {
        TakePart(b, size, n, m, g);
      } else {
        AllocWholeMemory(m, g, n);
        NoSplitIsClean(m, g, n);
        RepresentsUsed(PushFront(mem[..], b), Heap.Alloc(g, n));
      }
      PushUsed(b);
    }

    method Detach(b: nat, n: nat, ghost m: seq<Byte>, ghost g: State) returns (size: nat)
      requires Represents(m, g) && mem[..] == m && FirstFit(g.cells, g.free, n) < |g.free|
        && b == g.free[FirstFit(g.cells, g.free, n)]
      modifies mem
      ensures b in g.cells && size == g.cells[b]
      ensures UnlinkOk(m, b) && mem[..] == Unlink(m, 0, b)
    {
      hide *;
      TakenSize(m, g, n);
      LinksOk(m, b);
      RepresentsSize(m, g);
      RemoveBlock(0, b);
      size := LoadSize(b);
    }

    method LoadSize(b: nat) returns (v: nat)
      requires b + OVERHEAD <= mem.Length
      ensures v == Size(mem[..], b)
    {
      v := Load(b + 16);
    }

    // A client writes data at the start of the payload it holds. The free list is not involved.
    method Write(pointer: nat, data: seq<Byte>)
      requires UsedPart(mem[..], h) && pointer >= OVERHEAD && pointer - OVERHEAD in h.used
        && pointer - OVERHEAD in h.cells
      requires |data| <= h.cells[pointer - OVERHEAD]
      modifies mem
      ensures UsedPart(mem[..], h) && (Valid() <==> old(Valid())) && (Readable(mem[..]) <==> old(Readable(mem[..])))
      ensures pointer + |data| <= mem.Length && mem[..][pointer..pointer + |data|] == data
      ensures forall p <- h.used :: p != pointer - OVERHEAD ==> PayloadKept(old(mem[..]), mem[..], h.cells, p)
    {
      hide *;
      ghost var m := mem[..];
      PayloadWritten(m, h, pointer - OVERHEAD, data);
      ValidWhen();
      Overwrite(pointer, data);
      ValidWhen();
    }

    method Overwrite(a: nat, data: seq<Byte>)
      requires a + |data| <= mem.Length
      modifies mem
      ensures mem[..] == Fill(old(mem[..]), a, data)
    {
      forall i | 0 <= i < |data| { mem[a + i] := data[i]; }
    }

    // alloc: pointer is 0 for the null pointer.
    method Alloc(n: nat) returns (pointer: nat)
      requires Valid()
      modifies this, mem
      ensures forall o <- old(h.free) :: o in old(h.cells)
      ensures pointer == 0 <==> forall o <- old(h.free) :: old(h.cells)[o] < n
      ensures pointer == 0 ==> mem[..] == old(mem[..]) && h == old(h)
      ensures pointer != 0 ==> h == Heap.Alloc(old(h), n) && pointer == h.used[0] + OVERHEAD
      ensures pointer != 0 ==> pointer >= 24 && TakenFor(old(h), h, n, pointer - 24)
      ensures pointer != 0 ==> (Valid() <==> old(CleanSplit(mem[..], h, n)))
      ensures pointer != 0 ==> (Readable(mem[..]) <==> old(CleanSplit(mem[..], h, n)))
      ensures pointer != 0 ==> UsedPart(mem[..], h) && PayloadsKept(old(mem[..]), mem[..], old(h))
    {
      hide *;
      ghost var m, g, k := mem[..], h, 0;
      ValidIs();
      RepresentsSize(m, g);
      FreeEntry(m, g, 0);
      pointer := 0;
      var curr := LoadHead();
      NoneTooSmall(g, n);
      while curr != 0
        invariant h == g && mem[..] == m && pointer == 0
        invariant k <= |g.free| && curr == At(g.free, k) && TooSmall(g, n, k)
        decreases |g.free| - k
      {
        FreeEntry(m, g, k);
        var size := LoadSize(curr);
        if size >= n {
          FitsOrNot(g, mem.Length, n, k);
          TakeBlock(curr, n, m, g);
          h := Heap.Alloc(g, n);
          pointer := curr + OVERHEAD;
          HandedOut(g, mem.Length, n, k);
          ValidWhen();
          ReadableWhen(mem[..], h);
          return;
        }
        OneTooSmall(g, n, k);
        curr := LoadNext(curr);
        k := k + 1;
      }
      FreeEntry(m, g, k);
      FitsOrNot(g, mem.Length, n, k);
    }

    method LoadHead() returns (v: nat)
      requires 8 <= mem.Length
      ensures v == Word(mem[..], 0)
    {
      v := Load(0);
    }

    method LoadNext(b: nat) returns (v: nat)
      requires b + OVERHEAD <= mem.Length
      ensures v == Next(mem[..], b)
    {
      v := Load(b + 8);
    }
  }
}
