// A run on which alloc leaves the free list malformed: the header of a split-off block lies in
// former payload bytes, and insertion into an empty free list does not clear its links.
module StaleSplit {
  import opened Words
  import opened Heap
  import opened HeapMemory
  import opened FileBackedBuffers

  lemma WholeThenNothingFree()
    ensures var h := Initial(240);
      && FirstFit(h.cells, h.free, 200) == 0 && !Splits(h, 200)
      && Heap.Alloc(h, 200) == State(map[16 := 200], [], [16])
  {
  }

  lemma BackToInitial()
    ensures Heap.Free(State(map[16 := 200], [], [16]), 16) == Initial(240)
  {
    var cells, free: seq<nat> := map[16 := 200], [];
    assert free[..0] + [16] + free[0..] == [16];
    assert Insert(cells, free, 16) == (cells, [16]);
  }

  // With 0xFF at the offset of the split-off header, serving 10 bytes from the whole buffer is not clean.
  lemma Unclean(m: seq<Byte>)
    requires |m| == 240 && Represents(m, Initial(240)) && m[50] == 0xFF
    ensures FirstFit(Initial(240).cells, Initial(240).free, 10) == 0 && !CleanSplit(m, Initial(240), 10)
  {
    assert m[50..58][0] == 0xFF;
    assert Word(m, 50) == 0xFF + 256 * FromLE(m[50..58][1..]);
  }

  // A buffer of one free block, the payload of which has been used.
  method UsedBefore() returns (buffer: FileBackedBuffer)
    ensures fresh(buffer) && fresh(buffer.mem) && buffer.Valid() && buffer.h == Initial(240) && |buffer.mem[..]| == 240
      && buffer.mem[..][50] == 0xFF
  {
    hide Represents, CleanSplit, FirstFit, Splits, Readable, PayloadsKept, PayloadKept, Heap.Alloc, Heap.Free;
    WholeThenNothingFree();
    BackToInitial();
    buffer := new FileBackedBuffer(240);
    WholeIsClean(buffer.mem[..]);
    var large := buffer.Alloc(200);
    var ones: seq<Byte> := seq(200, _ => 0xFF);
    buffer.Write(large, ones);
    ghost var m := buffer.mem[..];
    buffer.Free(large);
    StillThere(m, buffer.mem[..], ones);
  }

  lemma WholeIsClean(m: seq<Byte>)
    requires Represents(m, Initial(240))
    ensures CleanSplit(m, Initial(240), 200) && 16 in Initial(240).cells && Initial(240).cells[16] == 200
      && Initial(240).free == [16]
  {
    WholeThenNothingFree();
    hide Represents, Heap.Alloc;
  }

  lemma StillThere(m: seq<Byte>, m': seq<Byte>, ones: seq<Byte>)
    requires PayloadKept(m, m', map[16 := 200], 16) && |m| == 240 && |ones| == 200 && m[40..240] == ones
      && ones[10] == 0xFF
    ensures |m'| == 240 && m'[50] == 0xFF
  {
    assert End(map[16 := 200], 16) == 240;
    assert m'[40..240] == m[40..240];
    assert m'[50] == m'[40..240][10];
  }

  // Allocate the whole buffer, fill it, release it, allocate a little: the bytes that this leaves are not those of
  // any heap.
  method LargeFillFreeSmall() returns (buffer: FileBackedBuffer, pointer: nat)
    ensures pointer != 0 && !Readable(buffer.mem[..])
  {
    hide Represents, CleanSplit, FirstFit, Splits, Readable, PayloadsKept, Heap.Alloc;
    buffer := UsedBefore();
    WholeIsFree();
    Unclean(buffer.mem[..]);
    pointer := buffer.Alloc(10);
  }

  lemma WholeIsFree()
    ensures 16 in Initial(240).free && 16 in Initial(240).cells && Initial(240).cells[16] >= 10
  {
  }
}
