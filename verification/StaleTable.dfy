// The stale links of the allocator reached through put alone: overwriting a key leaves a free block full of
// old bytes, and the next short pair is carved from it.
module StaleTable {
  import opened Words
  import opened Heap
  import opened HeapMemory
  import opened FileBackedBuffers
  import opened StoredPairs
  import opened HashTables

  const SIZE := 464
  const K: seq<Byte> := [107]
  const J: seq<Byte> := [106]

  function Long(fill: Byte): seq<Byte> { seq(197, _ => fill) }

  function AfterOne(): State { State(map[16 := 200, 240 := 200], [240], [16]) }
  function AfterTwo(): State { State(map[16 := 200, 240 := 200], [16], [240]) }

  // The first long pair gets the front half of the buffer ...
  lemma OneHeap()
    ensures var h := Initial(SIZE);
      (forall o <- h.free :: o in h.cells) && FirstFit(h.cells, h.free, 200) == 0 && Splits(h, 200)
          && Heap.Alloc(h, 200) == AfterOne()
  {
  }

  // ... the second one the back half, after which the front half is released ...
  lemma TwoHeap()
    ensures var h := AfterOne();
      && (forall o <- h.free :: o in h.cells) && FirstFit(h.cells, h.free, 200) == 0 && !Splits(h, 200)
      && Heap.Alloc(h, 200) == State(h.cells, [], [240, 16])
      && Heap.Free(State(h.cells, [], [240, 16]), 16) == AfterTwo()
  {
    var cells, free: seq<nat> := AfterOne().cells, [];
    assert free[..0] + [16] + free[0..] == [16];
    assert Insert(cells, free, 16) == (cells, [16]);
    assert [240, 16][1..] == [16];
  }

  // ... and a short pair splits it.
  lemma ThreeHeap()
    ensures var h := AfterTwo();
      (forall o <- h.free :: o in h.cells) && FirstFit(h.cells, h.free, 10) == 0 && Splits(h, 10)
          && h.cells[h.free[0]] == 200
  {
  }

  lemma FirstIsClean(m: seq<Byte>)
    requires |m| == SIZE && Represents(m, Initial(SIZE)) && forall i :: 40 <= i < |m| ==> m[i] == 0
    ensures CleanSplit(m, Initial(SIZE), 200)
  {
    hide Represents;
    ZeroWord(m, 240);
    ZeroWord(m, 248);
  }

  lemma ZeroWord(m: seq<Byte>, a: nat)
    requires a + 8 <= |m| && forall i :: a <= i < a + 8 ==> m[i] == 0
    ensures Word(m, a) == 0
  {
    ZeroLE(m[a..a + 8]);
  }

  lemma {:induction false} ZeroLE(s: seq<Byte>)
    requires forall i :: 0 <= i < |s| ==> s[i] == 0
    ensures FromLE(s) == 0
  {
    if s != [] { ZeroLE(s[1..]); }
  }

  lemma SecondIsClean(m: seq<Byte>)
    requires Represents(m, AfterOne())
    ensures CleanSplit(m, AfterOne(), 200)
  {
    hide Represents;
    TwoHeap();
  }

  // The header of the split-off block would lie at 50, where the first pair has left its bytes.
  lemma ThirdIsNot(m: seq<Byte>)
    requires |m| == SIZE && Represents(m, AfterTwo()) && m[50] == 0xFF
    ensures !CleanSplit(m, AfterTwo(), 10)
  {
    hide Represents;
    ThreeHeap();
    assert m[50..58][0] == 0xFF;
    assert Word(m, 50) == 0xFF + 256 * FromLE(m[50..58][1..]);
  }

  lemma Sizes(fill: Byte)
    requires fill != 0
    ensures NulFree(K) && NulFree(J) && NulFree(Long(fill)) && NulFree(Long(fill)[..7])
    ensures |K| + 1 + |Long(fill)| + 1 == 200 == |Encode(Pair(K, Long(fill)))| && |J| + 1 + |Long(fill)[..7]| + 1 == 10
  {
  }

  lemma NoPairs(m: seq<Byte>, h: State)
    requires h.used == []
    ensures Stores(m, h, map[]) && AllStored(h, map[]) && Represent(map[], map[])
  {
  }

  lemma AfterFirst(h': State, v: View, v': View, p: Pair)
    requires Places(Initial(SIZE), h', v, v', p) && p.key !in v.contents && v.stored == map[] && |Encode(p)| == 200
    ensures h' == AfterOne() && v'.stored == map[16 := p]
  {
    hide Encode;
    OneHeap();
  }

  lemma AfterSecond(h': State, v: View, v': View, p: Pair, q: Pair)
    requires Places(AfterOne(), h', v, v', p) && p.key in v.contents && v.stored == map[16 := q] && |Encode(p)| == 200
    ensures h' == AfterTwo()
  {
    hide Encode;
    TwoHeap();
  }

  lemma ByteOfFirst(m: seq<Byte>, stored: map<nat, Pair>)
    requires Stores(m, AfterOne(), stored) && stored == map[16 := Pair(K, Long(0xFF))] && |m| == SIZE
    ensures m[50] == 0xFF
  {
    var e := Encode(Pair(K, Long(0xFF)));
    assert Reads(m, AfterOne().cells, 16, stored[16]) && |e| == 200;
    assert m[40..240] == e;
    assert m[50] == m[40..240][10] == e[10] == Long(0xFF)[8];
  }

  lemma ByteKept(m: seq<Byte>, m': seq<Byte>)
    requires PayloadsKept(m, m', AfterOne()) && |m| == SIZE
    ensures m'[50] == m[50]
  {
    assert PayloadKept(m, m', AfterOne().cells, 16);
    assert End(AfterOne().cells, 16) == 240;
    assert m[50] == m[40..240][10] && m'[50] == m'[40..240][10];
  }

  lemma StoresOf(m: seq<Byte>, h: State, t: Snap)
    requires Agree(m, h, t)
    ensures Stores(m, h, t.v.stored)
  {
    Parts(m, h, t);
  }

  method OnePut() returns (table: HashTable)
    ensures fresh(table) && fresh(table.buffer) && fresh(table.buffer.mem)
    ensures table.Valid() && table.buffer.h == AfterOne() && |table.buffer.mem[..]| == SIZE
    ensures table.view.contents == map[K := Long(0xFF)] && table.view.stored == map[16 := Pair(K, Long(0xFF))]
  {
    hide CleanSplit, Represents, Agree, AllStored, Stores, Readable, PayloadsKept, Places, Encode, Heap.Alloc,
      Heap.Free, FirstFit,
      Long, AfterOne;
    var buffer := new FileBackedBuffer(SIZE);
    NoPairs(buffer.mem[..], buffer.h);
    table := new HashTable(buffer, 1, _ => 0, map[], map[]);
    Sizes(0xFF);
    OneHeap();
    FirstIsClean(buffer.mem[..]);
    ghost var v := table.view;
    var ok := table.Put(K, Long(0xFF));
    assert 16 in Initial(SIZE).free && Initial(SIZE).cells[16] == 424;
    AfterFirst(buffer.h, v, table.view, Pair(K, Long(0xFF)));
  }

  method TwoPuts() returns (table: HashTable)
    ensures fresh(table) && fresh(table.buffer) && fresh(table.buffer.mem)
    ensures table.Valid() && table.buffer.h == AfterTwo() && |table.buffer.mem[..]| == SIZE
      && table.buffer.mem[..][50] == 0xFF
    ensures table.view.contents == map[K := Long(0xFE)]
  {
    hide CleanSplit, Represents, Agree, AllStored, Stores, Readable, PayloadsKept, Places, Encode, Heap.Alloc,
      Heap.Free, FirstFit,
      Long, AfterTwo;
    table := OnePut();
    ghost var m, v := table.buffer.mem[..], table.view;
    StoresOf(m, table.buffer.h, table.Snapshot());
    ByteOfFirst(m, v.stored);
    SecondIsClean(m);
    Sizes(0xFE);
    var ok := table.Put(K, Long(0xFE));
    assert 240 in AfterOne().free && AfterOne().cells[240] == 200;
    AfterSecond(table.buffer.h, v, table.view, Pair(K, Long(0xFE)), Pair(K, Long(0xFF)));
    ByteKept(m, table.buffer.mem[..]);
  }

  // Put a long value, put another for the same key, put a short pair: lookups are still right, but the
  // bytes of the buffer are no longer those of any heap.
  method LongLongShort() returns (table: HashTable)
    ensures table.Searchable() && table.view.contents == map[K := Long(0xFE), J := Long(0xFE)[..7]]
    ensures !Readable(table.buffer.mem[..])
  {
    hide CleanSplit, Represents, Agree, AllStored, Stores, Readable, PayloadsKept, Places, Encode, Heap.Alloc,
      Heap.Free, FirstFit,
      Long;
    table := TwoPuts();
    Sizes(0xFE);
    ThirdIsNot(table.buffer.mem[..]);
    ghost var h := table.buffer.h;
    var ok := table.Put(J, Long(0xFE)[..7]);
    assert 16 in AfterTwo().free && AfterTwo().cells[16] == 200;
  }
}
