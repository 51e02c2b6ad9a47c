// Doubly linked lists threaded through the block headers of a flat byte buffer: what the
// allocator's pointer surgery does to memory, and that it realises the operations of Heap.
module Links {
  import opened Words
  import opened Heap

  // A block header is three words: previous offset, next offset, payload size.
  function Prev(m: seq<Byte>, b: nat): nat
    requires b + OVERHEAD <= |m|
  { Word(m, b) }

  function Next(m: seq<Byte>, b: nat): nat
    requires b + OVERHEAD <= |m|
  { Word(m, b + 8) }

  function Size(m: seq<Byte>, b: nat): nat
    requires b + OVERHEAD <= |m|
  { Word(m, b + 16) }

  // Offset 0 plays the null pointer.
  function At(l: seq<nat>, i: int): nat { if 0 <= i < |l| then l[i] else 0 }

  // The word at head and the links of the blocks in l form a doubly linked list.
  ghost predicate Linked(m: seq<Byte>, head: nat, l: seq<nat>) {
    && head + 8 <= |m| && Word(m, head) == At(l, 0)
    && (forall i {:trigger l[i]} :: 0 <= i < |l| ==> l[i] + OVERHEAD <= |m|)
    && (forall i {:trigger Prev(m, l[i])} :: 0 <= i < |l| ==> Prev(m, l[i]) == At(l, i - 1))
    && (forall i {:trigger Next(m, l[i])} :: 0 <= i < |l| ==> Next(m, l[i]) == At(l, i + 1))
  }

  // Headers that do not overlap each other or the buffer header.
  ghost predicate Spaced(l: seq<nat>, hi: nat) {
    && (forall i {:trigger l[i]} :: 0 <= i < |l| ==> START <= l[i] && l[i] + OVERHEAD <= hi)
    && (forall i, j :: 0 <= i < |l| && 0 <= j < |l| && i != j ==> l[i] + OVERHEAD <= l[j] || l[j] + OVERHEAD <= l[i])
  }

  // The bytes [x, y) lie outside the headers of the blocks in l.
  ghost predicate Clear(x: nat, y: nat, l: seq<nat>) { forall p <- l :: p + OVERHEAD <= x || y <= p }

  // Apart from the free-list head, only headers of blocks in l have changed.
  ghost predicate Frame(m: seq<Byte>, m': seq<Byte>, l: seq<nat>) {
    && |m'| == |m|
    && forall x: nat, y: nat {:trigger m'[x..y]} :: 8 <= x <= y <= |m| && Clear(x, y, l) ==> m'[x..y] == m[x..y]
  }

  // Removal of block b from the list whose head word is at head.
  function Unlink(m: seq<Byte>, head: nat, b: nat): (m': seq<Byte>)
    requires head + 8 <= |m| && b + OVERHEAD <= |m|
    requires Prev(m, b) != 0 ==> Prev(m, b) + OVERHEAD <= |m|
    requires Next(m, b) != 0 ==> Next(m, b) + OVERHEAD <= |m|
    ensures |m'| == |m|
  {
    var prev, next := Prev(m, b), Next(m, b);
    var m1 := Put(m, if prev != 0 then prev + 8 else head, next);
    var m2 := if next != 0 then Put(m1, next, prev) else m1;
    Put(Put(m2, b, 0), b + 8, 0)
  }

  // x is a word that a list operation may read: the head, or a header word of a block.
  ghost predicate Aligned(x: nat, head: nat, l: seq<nat>) {
    && (x == head || Apart(x, head))
    && forall i {:trigger l[i]} :: 0 <= i < |l| ==> (x == l[i] || x == l[i] + 8 || x + 8 <= l[i] || l[i] + 16 <= x)
  }

  predicate SameOrApart(a: nat, x: nat) { x == a || Apart(a, x) }

  lemma UnlinkRaw(m: seq<Byte>, head: nat, b: nat, a1: nat, x: nat)
    requires head + 8 <= |m| && b + OVERHEAD <= |m| && x + 8 <= |m|
    requires Prev(m, b) != 0 ==> Prev(m, b) + OVERHEAD <= |m|
    requires Next(m, b) != 0 ==> Next(m, b) + OVERHEAD <= |m|
    requires a1 == if Prev(m, b) != 0 then Prev(m, b) + 8 else head
    requires SameOrApart(a1, x) && SameOrApart(b, x) && SameOrApart(b + 8, x)
    requires Next(m, b) != 0 ==> SameOrApart(Next(m, b), x)
    ensures Word(Unlink(m, head, b), x) ==
      if x == b || x == b + 8 then 0
      else if Next(m, b) != 0 && x == Next(m, b) then Prev(m, b)
      else if x == a1 then Next(m, b)
      else Word(m, x)
  {
    hide Put, FromLE;
    var prev, next := Prev(m, b), Next(m, b);
    WordRange(m, b);
    WordRange(m, b + 8);
    var m1 := Put(m, a1, next);
    PutAt(m, a1, next, x);
    var m2 := if next != 0 then Put(m1, next, prev) else m1;
    if next != 0 { PutAt(m1, next, prev, x); }
    PutAt(m2, b, 0, x);
    PutAt(Put(m2, b, 0), b + 8, 0, x);
  }

  lemma UnlinkWord(m: seq<Byte>, head: nat, l: seq<nat>, k: nat, x: nat)
    requires (head == 0 || head == 8) && Linked(m, head, l) && Spaced(l, |m|)
    requires k < |l| && x + 8 <= |m| && Aligned(x, head, l)
    ensures Word(Unlink(m, head, l[k]), x) ==
      if x == l[k] || x == l[k] + 8 then 0
      else if k + 1 < |l| && x == l[k + 1] then At(l, k - 1)
      else if x == (if k > 0 then l[k - 1] + 8 else head) then At(l, k + 1)
      else Word(m, x)
  {
    var b := l[k];
    assert k > 0 ==> l[k - 1] == Prev(m, b) >= START;
    assert k + 1 < |l| ==> l[k + 1] == Next(m, b) >= START;
    UnlinkRaw(m, head, b, if k > 0 then l[k - 1] + 8 else head, x);
  }

  lemma SpacedAligned(l: seq<nat>, hi: nat, head: nat, j: nat)
    requires Spaced(l, hi) && (head == 0 || head == 8) && j < |l|
    ensures Aligned(l[j], head, l) && Aligned(l[j] + 8, head, l) && Aligned(l[j] + 16, head, l)
  {
  }

  lemma Far(l: seq<nat>, hi: nat, i: nat, j: nat)
    requires Spaced(l, hi) && i < |l| && j < |l| && i != j
    ensures l[i] + OVERHEAD <= l[j] || l[j] + OVERHEAD <= l[i]
  {
  }

  lemma UnlinkPrev(m: seq<Byte>, head: nat, l: seq<nat>, k: nat, j: nat)
    requires (head == 0 || head == 8) && Linked(m, head, l) && Spaced(l, |m|) && k < |l| && j < |l| && j != k
    ensures Prev(Unlink(m, head, l[k]), l[j]) == At(l, if j == k + 1 then k - 1 else j - 1)
  {
    hide Linked, Spaced, Unlink, Aligned;
    SpacedAligned(l, |m|, head, j);
    LinkedAt(m, head, l, j);
    UnlinkWord(m, head, l, k, l[j]);
    Far(l, |m|, k, j);
    Start(l, |m|, j);
    if k > 0 && j != k - 1 { Far(l, |m|, k - 1, j); }
    if k + 1 < |l| && j != k + 1 { Far(l, |m|, k + 1, j); }
  }

  lemma UnlinkNext(m: seq<Byte>, head: nat, l: seq<nat>, k: nat, j: nat)
    requires (head == 0 || head == 8) && Linked(m, head, l) && Spaced(l, |m|) && k < |l| && j < |l| && j != k
    ensures Next(Unlink(m, head, l[k]), l[j]) == At(l, if j + 1 == k then k + 1 else j + 1)
  {
    hide Linked, Spaced, Unlink, Aligned;
    SpacedAligned(l, |m|, head, j);
    LinkedAt(m, head, l, j);
    UnlinkWord(m, head, l, k, l[j] + 8);
    Far(l, |m|, k, j);
    Start(l, |m|, j);
    if k > 0 && j != k - 1 { Far(l, |m|, k - 1, j); }
    if k + 1 < |l| && j != k + 1 { Far(l, |m|, k + 1, j); }
  }

  lemma LinkedAt(m: seq<Byte>, head: nat, l: seq<nat>, j: nat)
    requires Linked(m, head, l) && j < |l|
    ensures l[j] + OVERHEAD <= |m| && Prev(m, l[j]) == At(l, j - 1) && Next(m, l[j]) == At(l, j + 1)
  {
  }

  lemma Start(l: seq<nat>, hi: nat, j: nat)
    requires Spaced(l, hi) && j < |l|
    ensures START <= l[j] && l[j] + OVERHEAD <= hi
  {
  }

  lemma UnlinkSelf(m: seq<Byte>, head: nat, l: seq<nat>, k: nat)
    requires (head == 0 || head == 8) && Linked(m, head, l) && Spaced(l, |m|) && k < |l|
    ensures var m' := Unlink(m, head, l[k]);
      Word(m', head) == (if k == 0 then At(l, 1) else At(l, 0)) && Prev(m', l[k]) == 0 && Next(m', l[k]) == 0
  {
    SpacedAligned(l, |m|, head, k);
    UnlinkWord(m, head, l, k, head);
    UnlinkWord(m, head, l, k, l[k]);
    UnlinkWord(m, head, l, k, l[k] + 8);
  }

  lemma UnlinkEntry(m: seq<Byte>, head: nat, l: seq<nat>, k: nat, i: nat)
    requires (head == 0 || head == 8) && Linked(m, head, l) && Spaced(l, |m|) && k < |l| && i < |l| - 1
    ensures var m', r := Unlink(m, head, l[k]), l[..k] + l[k + 1..];
      r[i] + OVERHEAD <= |m| && Prev(m', r[i]) == At(r, i - 1) && Next(m', r[i]) == At(r, i + 1)
  {
    var j := if i < k then i else i + 1;
    assert (l[..k] + l[k + 1..])[i] == l[j];
    UnlinkPrev(m, head, l, k, j);
    UnlinkNext(m, head, l, k, j);
    DropAt(l, k, i);
  }

  lemma UnlinkLinked(m: seq<Byte>, head: nat, l: seq<nat>, k: nat)
    requires (head == 0 || head == 8) && Linked(m, head, l) && Spaced(l, |m|) && k < |l|
    ensures Linked(Unlink(m, head, l[k]), head, l[..k] + l[k + 1..])
    ensures Prev(Unlink(m, head, l[k]), l[k]) == 0 == Next(Unlink(m, head, l[k]), l[k])
  {
    hide Unlink, Put, FromLE;
    var m', r := Unlink(m, head, l[k]), l[..k] + l[k + 1..];
    UnlinkSelf(m, head, l, k);
    forall i {:trigger Prev(m', r[i])} {:trigger Next(m', r[i])} | 0 <= i < |r|
      ensures r[i] + OVERHEAD <= |m| && Prev(m', r[i]) == At(r, i - 1) && Next(m', r[i]) == At(r, i + 1)
    {
      UnlinkEntry(m, head, l, k, i);
    }
  }

  // The neighbours in the list that is left when position k is dropped.
  lemma DropAt(l: seq<nat>, k: nat, i: nat)
    requires k < |l| && i < |l| - 1
    ensures var r, j := l[..k] + l[k + 1..], if i < k then i else i + 1;
      At(r, i - 1) == At(l, if j == k + 1 then k - 1 else j - 1)
          && At(r, i + 1) == At(l, if j + 1 == k then k + 1 else j + 1)
  {
  }

  // Bytes outside the written word keep their value.
  lemma PutSlice(m: seq<Byte>, a: nat, v: nat, x: nat, y: nat)
    requires a + 8 <= |m| && x <= y <= |m| && (y <= a || a + 8 <= x)
    ensures Put(m, a, v)[x..y] == m[x..y]
  {
  }

  lemma UnlinkSliceRaw(m: seq<Byte>, head: nat, b: nat, x: nat, y: nat)
    requires head + 8 <= |m| && b + OVERHEAD <= |m| && x <= y <= |m|
    requires Prev(m, b) != 0 ==> Prev(m, b) + OVERHEAD <= |m| && (Prev(m, b) + OVERHEAD <= x || y <= Prev(m, b))
    requires Next(m, b) != 0 ==> Next(m, b) + OVERHEAD <= |m| && (Next(m, b) + OVERHEAD <= x || y <= Next(m, b))
    requires (b + OVERHEAD <= x || y <= b) && (y <= head || head + 8 <= x)
    ensures Unlink(m, head, b)[x..y] == m[x..y]
  {
    hide Put, FromLE;
    var prev, next := Prev(m, b), Next(m, b);
    var a1 := if prev != 0 then prev + 8 else head;
    var m1 := Put(m, a1, next);
    PutSlice(m, a1, next, x, y);
    var m2 := if next != 0 then Put(m1, next, prev) else m1;
    if next != 0 { PutSlice(m1, next, prev, x, y); }
    PutSlice(m2, b, 0, x, y);
    PutSlice(Put(m2, b, 0), b + 8, 0, x, y);
  }

  lemma UnlinkSlice(m: seq<Byte>, head: nat, l: seq<nat>, k: nat, x: nat, y: nat)
    requires (head == 0 || head == 8) && Linked(m, head, l) && k < |l|
    requires x <= y <= |m| && Clear(x, y, l) && (y <= head || head + 8 <= x)
    ensures Unlink(m, head, l[k])[x..y] == m[x..y]
  {
    assert l[k] in l && (k > 0 ==> l[k - 1] in l) && (k + 1 < |l| ==> l[k + 1] in l);
    UnlinkSliceRaw(m, head, l[k], x, y);
  }

  lemma UnlinkSize(m: seq<Byte>, head: nat, l: seq<nat>, k: nat, j: nat)
    requires (head == 0 || head == 8) && Linked(m, head, l) && Spaced(l, |m|) && k < |l| && j < |l|
    ensures Size(Unlink(m, head, l[k]), l[j]) == Size(m, l[j])
  {
    SpacedAligned(l, |m|, head, j);
    UnlinkWord(m, head, l, k, l[j] + 16);
    if j != k { Far(l, |m|, k, j); }
    if k > 0 && j != k - 1 { Far(l, |m|, k - 1, j); }
    if k + 1 < |l| && j != k + 1 { Far(l, |m|, k + 1, j); }
  }

  // Block b is linked between prev and next.
  function LinkIn(m: seq<Byte>, b: nat, prev: nat, next: nat): (m': seq<Byte>)
    requires b + OVERHEAD <= |m| && prev + OVERHEAD <= |m| && next + OVERHEAD <= |m|
    ensures |m'| == |m|
  {
    var m1 := Put(Put(m, b, prev), b + 8, next);
    var m2 := Put(m1, if prev != 0 then prev + 8 else 0, b);
    if next != 0 then Put(m2, next, b) else m2
  }

  lemma LinkInRaw(m: seq<Byte>, b: nat, prev: nat, next: nat, a1: nat, x: nat)
    requires b + OVERHEAD <= |m| && prev + OVERHEAD <= |m| && next + OVERHEAD <= |m| && x + 8 <= |m| < TWO64
    requires a1 == if prev != 0 then prev + 8 else 0
    requires SameOrApart(a1, x) && SameOrApart(b, x) && SameOrApart(b + 8, x) && (next != 0 ==> SameOrApart(next, x))
    ensures Word(LinkIn(m, b, prev, next), x) ==
      if (next != 0 && x == next) || x == a1 then b
      else if x == b + 8 then next
      else if x == b then prev
      else Word(m, x)
  {
    hide Put, FromLE;
    var m1 := Put(Put(m, b, prev), b + 8, next);
    PutAt(m, b, prev, x);
    PutAt(Put(m, b, prev), b + 8, next, x);
    var m2 := Put(m1, a1, b);
    PutAt(m1, a1, b, x);
    if next != 0 { PutAt(m2, next, b, x); }
  }

  lemma LinkInWord(m: seq<Byte>, l: seq<nat>, k: nat, b: nat, x: nat)
    requires Linked(m, 0, l) && Spaced(l, |m|) && k <= |l| && |m| < TWO64
    requires START <= b && b + OVERHEAD <= |m| && Clear(b, b + OVERHEAD, l)
    requires x + 8 <= |m| && Aligned(x, 0, l) && SameOrApart(b, x) && SameOrApart(b + 8, x)
    ensures Word(LinkIn(m, b, At(l, k - 1), At(l, k)), x) ==
      if x == b then At(l, k - 1)
      else if x == b + 8 then At(l, k)
      else if k < |l| && x == l[k] then b
      else if x == (if k > 0 then l[k - 1] + 8 else 0) then b
      else Word(m, x)
  {
    assert k > 0 ==> l[k - 1] in l && l[k - 1] >= START;
    assert k < |l| ==> l[k] in l && l[k] >= START;
    LinkInRaw(m, b, At(l, k - 1), At(l, k), if k > 0 then l[k - 1] + 8 else 0, x);
  }

  lemma LinkInPrev(m: seq<Byte>, l: seq<nat>, k: nat, b: nat, j: nat)
    requires Linked(m, 0, l) && Spaced(l, |m|) && k <= |l| && |m| < TWO64 && j < |l|
    requires START <= b && b + OVERHEAD <= |m| && Clear(b, b + OVERHEAD, l)
    ensures Prev(LinkIn(m, b, At(l, k - 1), At(l, k)), l[j]) == if j == k then b else At(l, j - 1)
  {
    hide Linked, Spaced, LinkIn, Aligned;
    SpacedAligned(l, |m|, 0, j);
    LinkedAt(m, 0, l, j);
    Start(l, |m|, j);
    assert l[j] in l;
    LinkInWord(m, l, k, b, l[j]);
    if k > 0 && j != k - 1 { Far(l, |m|, k - 1, j); }
    if k < |l| && j != k { Far(l, |m|, k, j); }
    assert Prev(m, l[j]) == At(l, j - 1);
  }

  lemma LinkInNext(m: seq<Byte>, l: seq<nat>, k: nat, b: nat, j: nat)
    requires Linked(m, 0, l) && Spaced(l, |m|) && k <= |l| && |m| < TWO64 && j < |l|
    requires START <= b && b + OVERHEAD <= |m| && Clear(b, b + OVERHEAD, l)
    ensures Next(LinkIn(m, b, At(l, k - 1), At(l, k)), l[j]) == if j == k - 1 then b else At(l, j + 1)
  {
    hide Linked, Spaced, LinkIn, Aligned;
    SpacedAligned(l, |m|, 0, j);
    LinkedAt(m, 0, l, j);
    Start(l, |m|, j);
    assert l[j] in l;
    LinkInWord(m, l, k, b, l[j] + 8);
    if k > 0 && j != k - 1 { Far(l, |m|, k - 1, j); }
    if k < |l| && j != k { Far(l, |m|, k, j); }
    assert Next(m, l[j]) == At(l, j + 1);
  }

  lemma LinkInSelf(m: seq<Byte>, l: seq<nat>, k: nat, b: nat)
    requires Linked(m, 0, l) && Spaced(l, |m|) && k <= |l| && |m| < TWO64
    requires START <= b && b + OVERHEAD <= |m| && Clear(b, b + OVERHEAD, l)
    ensures var m' := LinkIn(m, b, At(l, k - 1), At(l, k));
      Word(m', 0) == (if k == 0 then b else At(l, 0)) && Prev(m', b) == At(l, k - 1) && Next(m', b) == At(l, k)
  {
    assert forall i {:trigger l[i]} :: 0 <= i < |l| ==> l[i] in l;
    LinkInWord(m, l, k, b, 0);
    LinkInWord(m, l, k, b, b);
    LinkInWord(m, l, k, b, b + 8);
  }

  // The neighbours in the list that results from inserting b at position k.
  lemma AddAt(l: seq<nat>, k: nat, b: nat, i: nat)
    requires k <= |l| && i <= |l| && i != k
    ensures var r, j := l[..k] + [b] + l[k..], if i < k then i else i - 1;
      && r[i] == l[j]
      && At(r, i - 1) == (if j == k then b else At(l, j - 1))
          && At(r, i + 1) == (if j == k - 1 then b else At(l, j + 1))
  {
  }

  lemma LinkInLinked(m: seq<Byte>, l: seq<nat>, k: nat, b: nat)
    requires Linked(m, 0, l) && Spaced(l, |m|) && k <= |l| && |m| < TWO64
    requires START <= b && b + OVERHEAD <= |m| && Clear(b, b + OVERHEAD, l)
    ensures Linked(LinkIn(m, b, At(l, k - 1), At(l, k)), 0, l[..k] + [b] + l[k..])
  {
    hide LinkIn, Put, FromLE, Spaced, Clear;
    var m', r := LinkIn(m, b, At(l, k - 1), At(l, k)), l[..k] + [b] + l[k..];
    LinkInSelf(m, l, k, b);
    forall i {:trigger Prev(m', r[i])} {:trigger Next(m', r[i])} | 0 <= i < |r|
      ensures r[i] + OVERHEAD <= |m| && Prev(m', r[i]) == At(r, i - 1) && Next(m', r[i]) == At(r, i + 1)
    {
      if i != k {
        AddAt(l, k, b, i);
        LinkInPrev(m, l, k, b, if i < k then i else i - 1);
        LinkInNext(m, l, k, b, if i < k then i else i - 1);
      }
    }
  }

  lemma LinkInSlice(m: seq<Byte>, l: seq<nat>, k: nat, b: nat, x: nat, y: nat)
    requires Linked(m, 0, l) && k <= |l| && b + OVERHEAD <= |m|
    requires 8 <= x <= y <= |m| && Clear(x, y, l) && (b + OVERHEAD <= x || y <= b)
    ensures LinkIn(m, b, At(l, k - 1), At(l, k))[x..y] == m[x..y]
  {
    hide Put, FromLE;
    var prev, next := At(l, k - 1), At(l, k);
    assert (k > 0 ==> l[k - 1] in l) && (k < |l| ==> l[k] in l);
    var m1 := Put(Put(m, b, prev), b + 8, next);
    PutSlice(m, b, prev, x, y);
    PutSlice(Put(m, b, prev), b + 8, next, x, y);
    var a1 := if prev != 0 then prev + 8 else 0;
    PutSlice(m1, a1, b, x, y);
    if next != 0 { PutSlice(Put(m1, a1, b), next, b, x, y); }
  }

  lemma LinkInSize(m: seq<Byte>, l: seq<nat>, k: nat, b: nat, o: nat)
    requires Linked(m, 0, l) && Spaced(l, |m|) && k <= |l| && |m| < TWO64
    requires START <= b && b + OVERHEAD <= |m| && Clear(b, b + OVERHEAD, l) && (o == b || o in l)
    ensures o + OVERHEAD <= |m| && Size(LinkIn(m, b, At(l, k - 1), At(l, k)), o) == Size(m, o)
  {
    hide LinkIn, Put, FromLE;
    assert forall i {:trigger l[i]} :: 0 <= i < |l| ==> l[i] in l;
    if o != b {
      var j :| 0 <= j < |l| && l[j] == o;
      SpacedAligned(l, |m|, 0, j);
      if k > 0 && j != k - 1 { Far(l, |m|, k - 1, j); }
      if k < |l| && j != k { Far(l, |m|, k, j); }
    }
    LinkInWord(m, l, k, b, o + 16);
  }

  // --- merging with contiguous neighbours --------------------------------------------------------

  // The free list l is threaded through m, and the sizes of its blocks are those in cells.
  ghost predicate Threaded(m: seq<Byte>, cells: map<nat, nat>, l: seq<nat>) {
    && Linked(m, 0, l) && Spaced(l, |m|)
    && forall o <- l :: o in cells && o + OVERHEAD <= |m| && Size(m, o) == cells[o]
  }

  lemma LinkedSame(m: seq<Byte>, m': seq<Byte>, head: nat, l: seq<nat>)
    requires Linked(m, head, l) && |m'| == |m| && Word(m', head) == Word(m, head)
    requires forall i {:trigger l[i]} :: 0 <= i < |l| ==> Prev(m', l[i]) == Prev(m, l[i]) && Next(m', l[i]) == Next(m, l[i])
    ensures Linked(m', head, l)
  {
  }

  lemma ResizedEntry(m: seq<Byte>, l: seq<nat>, j: nat, v: nat, i: nat)
    requires Spaced(l, |m|) && j < |l| && i < |l| && v < TWO64
    ensures var m' := Put(m, l[j] + 16, v);
      && Word(m', 0) == Word(m, 0)
      && Prev(m', l[i]) == Prev(m, l[i]) && Next(m', l[i]) == Next(m, l[i])
      && Size(m', l[i]) == if i == j then v else Size(m, l[i])
  {
    if i != j { Far(l, |m|, i, j); }
    PutAt(m, l[j] + 16, v, 0);
    PutAt(m, l[j] + 16, v, l[i]);
    PutAt(m, l[j] + 16, v, l[i] + 8);
    PutAt(m, l[j] + 16, v, l[i] + 16);
  }

  // Rewriting the size of p leaves the list alone.
  lemma Resized(m: seq<Byte>, c: map<nat, nat>, l: seq<nat>, j: nat, v: nat)
    requires Linked(m, 0, l) && Spaced(l, |m|) && j < |l| && v < TWO64
    requires forall i {:trigger l[i]} :: 0 <= i < |l| ==>
      l[i] in c && l[i] + OVERHEAD <= |m| && if i == j then c[l[i]] == v else Size(m, l[i]) == c[l[i]]
    ensures Threaded(Put(m, l[j] + 16, v), c, l)
  {
    var m' := Put(m, l[j] + 16, v);
    forall i | 0 <= i < |l|
      ensures Word(m', 0) == Word(m, 0)
      ensures Prev(m', l[i]) == Prev(m, l[i]) && Next(m', l[i]) == Next(m, l[i])
      ensures Size(m', l[i]) == c[l[i]]
    {
      ResizedEntry(m, l, j, v, i);
    }
    assert Word(m', 0) == Word(m, 0);
    LinkedSame(m, m', 0, l);
  }

  lemma DropSpaced(l: seq<nat>, hi: nat, k: nat)
    requires Spaced(l, hi) && k < |l|
    ensures Spaced(l[..k] + l[k + 1..], hi)
  {
  }

  // Removing entry k from a threaded list.
  lemma Unthread(m: seq<Byte>, cells: map<nat, nat>, l: seq<nat>, k: nat)
    requires Threaded(m, cells, l) && k < |l|
    ensures Threaded(Unlink(m, 0, l[k]), cells, l[..k] + l[k + 1..])
    ensures Size(Unlink(m, 0, l[k]), l[k]) == Size(m, l[k])
  {
    UnlinkLinked(m, 0, l, k);
    DropSpaced(l, |m|, k);
    UnlinkSize(m, 0, l, k, k);
    forall o | o in l[..k] + l[k + 1..]
      ensures o in cells && Size(Unlink(m, 0, l[k]), o) == cells[o]
    {
      assert o in l;
      var j :| 0 <= j < |l| && l[j] == o;
      UnlinkSize(m, 0, l, k, j);
    }
  }

  // The block at position k absorbs the one at position k + 1, with which it is contiguous.
  function Absorb(m: seq<Byte>, l: seq<nat>, k: nat): seq<Byte>
    requires Linked(m, 0, l) && k + 1 < |l|
  {
    var m' := Unlink(m, 0, l[k + 1]);
    Put(m', l[k] + 16, Size(m', l[k]) + (OVERHEAD + Size(m', l[k + 1])))
  }

  // Dropping position d leaves p = l[k] at position e and every other entry different from both.
  lemma DropOthers(l: seq<nat>, hi: nat, d: nat, k: nat, i: nat)
    requires Spaced(l, hi) && d < |l| && k < |l| && k != d && i < |l| - 1
    ensures var r, e := l[..d] + l[d + 1..], if k < d then k else k - 1;
      r[e] == l[k] && r[i] in l && r[i] != l[d] && (i != e ==> r[i] != l[k])
  {
    var r, e := l[..d] + l[d + 1..], if k < d then k else k - 1;
    var j := if i < d then i else i + 1;
    assert r[i] == l[j];
    Far(l, hi, d, j);
    if i != e { Far(l, hi, k, j); }
  }

  lemma AbsorbSizes(m: seq<Byte>, cells: map<nat, nat>, l: seq<nat>, k: nat)
    requires Threaded(m, cells, l) && Tiled(cells, |m|)
    requires k + 1 < |l| && l[k] in cells && l[k + 1] in cells && End(cells, l[k]) == l[k + 1]
    ensures var m' := Unlink(m, 0, l[k + 1]);
      && Threaded(m', cells, l[..k + 1] + l[k + 2..])
      && (l[..k + 1] + l[k + 2..])[k] == l[k]
      && l[k] in Join(cells, l[k])
      && Absorb(m, l, k) == Put(m', l[k] + 16, Join(cells, l[k])[l[k]])
      && Join(cells, l[k])[l[k]] <= |m|
  {
    hide Join, Unlink, Put, Tiled;
    Unthread(m, cells, l, k + 1);
    DropOthers(l, |m|, k + 1, k, k);
    assert (l[..k + 1] + l[k + 2..])[k] in l[..k + 1] + l[k + 2..];
    assert l[k + 1] in l;
    JoinValue(cells, l[k], |m|);
  }

  lemma AbsorbThreaded(m: seq<Byte>, cells: map<nat, nat>, l: seq<nat>, k: nat)
    requires Threaded(m, cells, l) && |m| < TWO64 && Tiled(cells, |m|)
    requires k + 1 < |l| && l[k] in cells && l[k + 1] in cells && End(cells, l[k]) == l[k + 1]
    ensures Threaded(Absorb(m, l, k), Join(cells, l[k]), l[..k + 1] + l[k + 2..])
  {
    hide Join, Unlink, Put, Tiled, Absorb, FromLE;
    var m', l', c := Unlink(m, 0, l[k + 1]), l[..k + 1] + l[k + 2..], Join(cells, l[k]);
    AbsorbSizes(m, cells, l, k);
    JoinOther(cells, l[k]);
    JoinSizes(m', cells, c, l, l', k + 1, k);
    Resized(m', c, l', k, c[l[k]]);
  }

  lemma JoinSizes(m': seq<Byte>, cells: map<nat, nat>, c: map<nat, nat>, l: seq<nat>, l': seq<nat>, d: nat, k: nat)
    requires Threaded(m', cells, l') && Spaced(l, |m'|) && d < |l| && k < |l| && k != d && l' == l[..d] + l[d + 1..]
    requires forall o <- cells :: o != l[d] ==> o in c && (o != l[k] ==> c[o] == cells[o])
    ensures var e := if k < d then k else k - 1;
      forall i {:trigger l'[i]} :: 0 <= i < |l'| ==> l'[i] in c && l'[i] + OVERHEAD <= |m'| && (i != e ==> Size(m', l'[i]) == c[l'[i]])
  {
    forall i {:trigger l'[i]} | 0 <= i < |l'|
      ensures l'[i] in c && l'[i] + OVERHEAD <= |m'|
        && (i != (if k < d then k else k - 1) ==> Size(m', l'[i]) == c[l'[i]])
    {
      assert l'[i] in l';
      DropOthers(l, |m'|, d, k, i);
    }
  }

  function BothJoined(cells: map<nat, nat>, l: seq<nat>, k: nat): map<nat, nat>
    requires 0 < k && k + 1 < |l| && l[k - 1] in cells && l[k] in cells && l[k + 1] in cells
    requires End(cells, l[k - 1]) == l[k] && End(cells, l[k]) == l[k + 1]
  {
    Join(Join(cells, l[k]), l[k - 1])
  }

  lemma BothSizes(m: seq<Byte>, cells: map<nat, nat>, l: seq<nat>, k: nat)
    requires Tiled(cells, |m|) && 0 < k && k + 1 < |l|
    requires l[k - 1] in cells && l[k] in cells && l[k + 1] in cells
    requires End(cells, l[k - 1]) == l[k] && End(cells, l[k]) == l[k + 1]
    ensures var c := BothJoined(cells, l, k);
      && l[k - 1] in c
          && c[l[k - 1]] == cells[l[k - 1]] + ((OVERHEAD + cells[l[k]]) + (OVERHEAD + cells[l[k + 1]])) <= |m|
      && forall o <- cells :: o != l[k] && o != l[k + 1] ==> o in c && (o != l[k - 1] ==> c[o] == cells[o])
  {
    var c1 := Join(cells, l[k]);
    JoinValue(cells, l[k], |m|);
    JoinOther(cells, l[k]);
    JoinTiled(cells, l[k], |m|);
    JoinValue(c1, l[k - 1], |m|);
    JoinOther(c1, l[k - 1]);
  }

  lemma DetachedSize(m: seq<Byte>, l: seq<nat>, k: nat, o: nat)
    requires Linked(m, 0, l) && k < |l| && START <= o && o + OVERHEAD <= |m| && Clear(o, o + OVERHEAD, l)
    ensures |Unlink(m, 0, l[k])| == |m| && Size(Unlink(m, 0, l[k]), o) == Size(m, o)
  {
    hide Unlink, Put, Linked;
    assert Clear(o + 16, o + OVERHEAD, l) by { assert forall p <- l :: p + OVERHEAD <= o || o + OVERHEAD <= p; }
    UnlinkSlice(m, 0, l, k, o + 16, o + OVERHEAD);
  }

  // Entry k is unlinked; entry k + 1, now at position k, is still part of the list.
  lemma StillLinked(m: seq<Byte>, l: seq<nat>, k: nat)
    requires Linked(m, 0, l) && Spaced(l, |m|) && k + 1 < |l|
    ensures var m1, l1 := Unlink(m, 0, l[k]), l[..k] + l[k + 1..];
      && Linked(m1, 0, l1) && Spaced(l1, |m|) && l1[k] == l[k + 1]
      && (Prev(m1, l1[k]) != 0 ==> Prev(m1, l1[k]) + OVERHEAD <= |m|)
          && (Next(m1, l1[k]) != 0 ==> Next(m1, l1[k]) + OVERHEAD <= |m|)
  {
    hide Unlink, Put;
    UnlinkLinked(m, 0, l, k);
    DropSpaced(l, |m|, k);
    var m1, l1 := Unlink(m, 0, l[k]), l[..k] + l[k + 1..];
    assert Prev(m1, l1[k]) == At(l1, k - 1) && Next(m1, l1[k]) == At(l1, k + 1);
  }

  // Entry k, then the entry after it, unlinked.
  function UnlinkTwo(m: seq<Byte>, l: seq<nat>, k: nat): (m': seq<Byte>)
    requires Linked(m, 0, l) && Spaced(l, |m|) && k + 1 < |l|
    ensures |m'| == |m|
  {
    StillLinked(m, l, k);
    Unlink(Unlink(m, 0, l[k]), 0, l[k + 1])
  }

  // The block at position k is swallowed by its left neighbour together with its right neighbour.
  function AbsorbBoth(m: seq<Byte>, l: seq<nat>, k: nat): seq<Byte>
    requires Linked(m, 0, l) && Spaced(l, |m|) && 0 < k && k + 1 < |l|
  {
    var m' := UnlinkTwo(m, l, k);
    Put(m', l[k - 1] + 16, Size(m', l[k - 1]) + ((OVERHEAD + Size(m', l[k])) + (OVERHEAD + Size(m', l[k + 1]))))
  }

  lemma UnthreadTwo(m: seq<Byte>, cells: map<nat, nat>, l: seq<nat>, k: nat)
    requires Threaded(m, cells, l) && 0 < k && k + 1 < |l|
    ensures var m', l' := UnlinkTwo(m, l, k), l[..k] + l[k + 2..];
      && Threaded(m', cells, l') && l'[k - 1] == l[k - 1]
      && l[k] in cells && l[k + 1] in cells && Size(m', l[k]) == cells[l[k]] && Size(m', l[k + 1]) == cells[l[k + 1]]
  {
    hide Unlink, Put;
    var l1, l' := l[..k] + l[k + 1..], l[..k] + l[k + 2..];
    var m1 := Unlink(m, 0, l[k]);
    assert l[k] in l && l[k + 1] in l;
    Unthread(m, cells, l, k);
    assert l1[k] == l[k + 1] && l1[..k] + l1[k + 1..] == l';
    assert l1[k] in l1;
    Unthread(m1, cells, l1, k);
    DroppedClear(l, |m|, k);
    DetachedSize(m1, l1, k, l[k]);
  }

  lemma DroppedClear(l: seq<nat>, hi: nat, k: nat)
    requires Spaced(l, hi) && k < |l|
    ensures Clear(l[k], l[k] + OVERHEAD, l[..k] + l[k + 1..])
  {
    var r := l[..k] + l[k + 1..];
    forall p | p in r
      ensures p + OVERHEAD <= l[k] || l[k] + OVERHEAD <= p
    {
      var i :| 0 <= i < |r| && r[i] == p;
      Far(l, hi, k, if i < k then i else i + 1);
    }
  }

  lemma OtherThanBoth(l: seq<nat>, hi: nat, k: nat, i: nat)
    requires Spaced(l, hi) && 0 < k && k + 1 < |l| && i < |l| - 2
    ensures var x := (l[..k] + l[k + 2..])[i]; x != l[k] && x != l[k + 1] && (i != k - 1 ==> x != l[k - 1])
  {
    var j := if i < k then i else i + 2;
    Far(l, hi, k, j);
    Far(l, hi, k + 1, j);
    if i != k - 1 { Far(l, hi, k - 1, j); }
  }

  lemma BothThreaded(m: seq<Byte>, cells: map<nat, nat>, l: seq<nat>, k: nat)
    requires Threaded(m, cells, l) && |m| < TWO64 && Tiled(cells, |m|) && 0 < k && k + 1 < |l|
    requires l[k - 1] in cells && l[k] in cells && l[k + 1] in cells
    requires End(cells, l[k - 1]) == l[k] && End(cells, l[k]) == l[k + 1]
    ensures Threaded(AbsorbBoth(m, l, k), BothJoined(cells, l, k), l[..k] + l[k + 2..])
  {
    hide UnlinkTwo, Put, Linked, Tiled, Join, BothJoined, Spaced;
    var m', l', c := UnlinkTwo(m, l, k), l[..k] + l[k + 2..], BothJoined(cells, l, k);
    UnthreadTwo(m, cells, l, k);
    BothSizes(m, cells, l, k);
    assert l'[k - 1] in l';
    forall i {:trigger l'[i]} | 0 <= i < |l'|
      ensures l'[i] in c && l'[i] + OVERHEAD <= |m| && if i == k - 1 then c[l'[i]] == c[l[k - 1]]
        else Size(m', l'[i]) == c[l'[i]]
    {
      assert l'[i] in l';
      OtherThanBoth(l, |m|, k, i);
    }
    Resized(m', c, l', k - 1, c[l[k - 1]]);
  }

  lemma BothBounds(m: seq<Byte>, cells: map<nat, nat>, l: seq<nat>, k: nat)
    requires Threaded(m, cells, l) && Tiled(cells, |m|) && 0 < k && k + 1 < |l|
    requires l[k - 1] in cells && l[k] in cells && l[k + 1] in cells
    requires End(cells, l[k - 1]) == l[k] && End(cells, l[k]) == l[k + 1]
    ensures var m' := UnlinkTwo(m, l, k);
      && l[k - 1] + OVERHEAD <= |m| && l[k] + OVERHEAD <= |m| && l[k + 1] + OVERHEAD <= |m|
      && Size(m', l[k - 1]) + ((OVERHEAD + Size(m', l[k])) + (OVERHEAD + Size(m', l[k + 1]))) <= |m|
  {
    hide UnlinkTwo, Linked, Join, BothJoined, Spaced;
    UnthreadTwo(m, cells, l, k);
    BothSizes(m, cells, l, k);
    assert l[k - 1] in l && l[k] in l && l[k + 1] in l;
    assert (l[..k] + l[k + 2..])[k - 1] in l[..k] + l[k + 2..];
  }

  lemma AbsorbBounds(m: seq<Byte>, cells: map<nat, nat>, l: seq<nat>, k: nat)
    requires Threaded(m, cells, l) && Tiled(cells, |m|) && k + 1 < |l|
    requires l[k] in cells && l[k + 1] in cells && End(cells, l[k]) == l[k + 1]
    ensures var m' := Unlink(m, 0, l[k + 1]);
      && l[k] + OVERHEAD <= |m| && l[k + 1] + OVERHEAD <= |m|
      && Size(m', l[k]) + (OVERHEAD + Size(m', l[k + 1])) <= |m|
  {
    hide Unlink, Linked, Join, Tiled;
    Unthread(m, cells, l, k + 1);
    assert (l[..k + 1] + l[k + 2..])[k] in l[..k + 1] + l[k + 2..];
    assert l[k] in l && l[k + 1] in l;
    JoinValue(cells, l[k], |m|);
  }

  // The links of b stay inside the buffer, which is what removing b needs.
  ghost predicate UnlinkOk(m: seq<Byte>, b: nat) {
    && b + OVERHEAD <= |m|
    && (Prev(m, b) != 0 ==> Prev(m, b) + OVERHEAD <= |m|)
    && (Next(m, b) != 0 ==> Next(m, b) + OVERHEAD <= |m|)
  }

  lemma Removable(m: seq<Byte>, head: nat, l: seq<nat>, k: nat)
    requires Linked(m, head, l) && k < |l|
    ensures UnlinkOk(m, l[k])
  {
    assert Prev(m, l[k]) == At(l, k - 1) && Next(m, l[k]) == At(l, k + 1);
  }

  // What removing the entry after position k needs.
  lemma RemoveNext(m: seq<Byte>, l: seq<nat>, k: nat)
    requires Linked(m, 0, l) && k + 1 < |l|
    ensures Prev(m, l[k + 1]) != 0 ==> Prev(m, l[k + 1]) + OVERHEAD <= |m|
    ensures Next(m, l[k + 1]) != 0 ==> Next(m, l[k + 1]) + OVERHEAD <= |m|
  {
    assert Prev(m, l[k + 1]) == At(l, k) && Next(m, l[k + 1]) == At(l, k + 2);
  }

  predicate JoinsLeft(cells: map<nat, nat>, l: seq<nat>, k: nat)
    requires k < |l| && forall o <- l :: o in cells
  {
    k > 0 && End(cells, l[k - 1]) == l[k]
  }

  predicate JoinsRight(cells: map<nat, nat>, l: seq<nat>, k: nat)
    requires k < |l| && forall o <- l :: o in cells
  {
    k + 1 < |l| && End(cells, l[k]) == l[k + 1]
  }

  // Merging the block at position k with its contiguous neighbours.
  function Merged(m: seq<Byte>, cells: map<nat, nat>, l: seq<nat>, k: nat): seq<Byte>
    requires Threaded(m, cells, l) && k < |l|
  {
    if JoinsLeft(cells, l, k) && JoinsRight(cells, l, k) then AbsorbBoth(m, l, k)
    else if JoinsLeft(cells, l, k) then Absorb(m, l, k - 1)
    else if JoinsRight(cells, l, k) then Absorb(m, l, k)
    else m
  }

  lemma TiledSpaced(cells: map<nat, nat>, l: seq<nat>, hi: nat)
    requires Tiled(cells, hi) && Distinct(l) && forall o <- l :: o in cells
    ensures Spaced(l, hi)
  {
    Bounds(cells, hi);
    assert forall i {:trigger l[i]} :: 0 <= i < |l| ==> l[i] in l;
    forall i, j | 0 <= i < |l| && 0 <= j < |l| && i != j
      ensures l[i] + OVERHEAD <= l[j] || l[j] + OVERHEAD <= l[i]
    {
      var e, f := End(cells, l[i]), End(cells, l[j]);
      assert l[i] != l[j];
    }
  }

  lemma TiledClear(cells: map<nat, nat>, l: seq<nat>, hi: nat, b: nat)
    requires Tiled(cells, hi) && b in cells && b !in l && forall o <- l :: o in cells
    ensures Clear(b, b + OVERHEAD, l) && START <= b && b + OVERHEAD <= hi
  {
    Bounds(cells, hi);
    forall p | p in l
      ensures p + OVERHEAD <= b || b + OVERHEAD <= p
    {
      var e, f := End(cells, p), End(cells, b);
    }
  }

  // The list with b linked in at its sorted position.
  function WithBlock(free: seq<nat>, b: nat): seq<nat> {
    var k := Position(free, b); free[..k] + [b] + free[k..]
  }

  // What insert_block_to_free_list does to memory when the free list is not empty.
  function Inserted(m: seq<Byte>, free: seq<nat>, b: nat): (m': seq<Byte>)
    requires b + OVERHEAD <= |m| && forall o <- free :: o + OVERHEAD <= |m|
    ensures |m'| == |m|
  {
    var k := Position(free, b);
    assert (k > 0 ==> free[k - 1] in free) && (k < |free| ==> free[k] in free);
    LinkIn(m, b, At(free, k - 1), At(free, k))
  }

  lemma InsertedThreaded(m: seq<Byte>, cells: map<nat, nat>, free: seq<nat>, b: nat)
    requires Threaded(m, cells, free) && |m| < TWO64 && Tiled(cells, |m|) && Ascending(free)
    requires b in cells && b !in free && b + OVERHEAD <= |m| && Size(m, b) == cells[b]
    ensures Threaded(Inserted(m, free, b), cells, WithBlock(free, b))
    ensures Position(free, b) < |WithBlock(free, b)| && WithBlock(free, b)[Position(free, b)] == b
  {
    hide LinkIn, Tiled;
    var k, l := Position(free, b), WithBlock(free, b);
    TiledClear(cells, free, |m|, b);
    LinkInLinked(m, free, k, b);
    Cut(free, b);
    Added(free, b, k);
    TiledSpaced(cells, l, |m|);
    forall o | o in l
      ensures o in cells && o + OVERHEAD <= |m| && Size(Inserted(m, free, b), o) == cells[o]
    {
      LinkInSize(m, free, k, b, o);
    }
  }

  lemma WithBlockAt(free: seq<nat>, b: nat)
    ensures var k, l := Position(free, b), WithBlock(free, b);
      && |l| == |free| + 1 && l[k] == b && (k > 0 ==> l[k - 1] == free[k - 1]) && (k < |free| ==> l[k + 1] == free[k])
      && l == free[..k] + [b] + free[k..] && l[..k] + l[k + 1..] == free
  {
    hide Position;
    var k, l := Position(free, b), WithBlock(free, b);
    assert l[..k] == free[..k] && l[k + 1..] == free[k..];
  }

  lemma WithBlockDrop(free: seq<nat>, b: nat)
    requires Position(free, b) < |free|
    ensures var k, l := Position(free, b), WithBlock(free, b);
      && l[..k] + l[k + 2..] == free[..k] + free[k + 1..]
      && l[..k + 1] + l[k + 2..] == free[..k] + [b] + free[k + 1..]
  {
    hide Position;
    var k, l := Position(free, b), WithBlock(free, b);
    assert l[..k] == free[..k] && l[k + 2..] == free[k + 1..] && l[..k + 1] == free[..k] + [b];
  }

  lemma SameJoins(cells: map<nat, nat>, free: seq<nat>, b: nat)
    requires b in cells && forall o <- free :: o in cells
    ensures var k, l := Position(free, b), WithBlock(free, b);
      && k < |l| && (forall o <- l :: o in cells)
      && JoinsLeft(cells, l, k) == MergesLeft(cells, free, b)
      && JoinsRight(cells, l, k) == MergesRight(cells, free, b)
  {
    WithBlockAt(free, b);
  }

  // The merged memory threads exactly the list and sizes of the abstract insertion.
  lemma MergedThreaded(m: seq<Byte>, cells: map<nat, nat>, free: seq<nat>, b: nat)
    requires Threaded(m, cells, WithBlock(free, b)) && |m| < TWO64 && Tiled(cells, |m|)
    requires b in cells && forall o <- free :: o in cells
    ensures var k, l := Position(free, b), WithBlock(free, b);
      k < |l| && var (c, f) := Insert(cells, free, b); Threaded(Merged(m, cells, l, k), c, f)
  {
    hide Threaded, Tiled, AbsorbBoth, Absorb, Join, WithBlock, Position;
    var k, l := Position(free, b), WithBlock(free, b);
    WithBlockAt(free, b);
    if k < |free| { WithBlockDrop(free, b); }
    SameJoins(cells, free, b);
    if JoinsLeft(cells, l, k) && JoinsRight(cells, l, k) {
      BothThreaded(m, cells, l, k);
    } else if JoinsLeft(cells, l, k) {
      AbsorbThreaded(m, cells, l, k - 1);
    } else if JoinsRight(cells, l, k) {
      AbsorbThreaded(m, cells, l, k);
    }
  }

  lemma FrameTrans(m: seq<Byte>, m1: seq<Byte>, m2: seq<Byte>, l: seq<nat>)
    requires Frame(m, m1, l) && Frame(m1, m2, l)
    ensures Frame(m, m2, l)
  {
    forall x: nat, y: nat | 8 <= x <= y <= |m| && Clear(x, y, l)
      ensures m2[x..y] == m[x..y]
    {
      var s1, s2 := m1[x..y], m2[x..y];
    }
  }

  lemma InsertedFrame(m: seq<Byte>, free: seq<nat>, b: nat)
    requires Linked(m, 0, free) && b + OVERHEAD <= |m| && (forall o <- free :: o + OVERHEAD <= |m|)
    requires forall o <- free :: o in WithBlock(free, b)
    requires b in WithBlock(free, b)
    ensures Frame(m, Inserted(m, free, b), WithBlock(free, b))
  {
    hide LinkIn, Linked, WithBlock;
    forall x: nat, y: nat | 8 <= x <= y <= |m| && Clear(x, y, WithBlock(free, b))
      ensures Inserted(m, free, b)[x..y] == m[x..y]
    {
      assert Clear(x, y, free);
      LinkInSlice(m, free, Position(free, b), b, x, y);
    }
  }

  lemma AbsorbFrame(m: seq<Byte>, l: seq<nat>, k: nat)
    requires Linked(m, 0, l) && k + 1 < |l|
    ensures Frame(m, Absorb(m, l, k), l)
  {
    hide Put, Unlink;
    RemoveNext(m, l, k);
    var m' := Unlink(m, 0, l[k + 1]);
    assert l[k] in l;
    hide Linked;
    forall x: nat, y: nat | 8 <= x <= y <= |m| && Clear(x, y, l)
      ensures Absorb(m, l, k)[x..y] == m[x..y]
    {
      UnlinkSlice(m, 0, l, k + 1, x, y);
      PutSlice(m', l[k] + 16, Size(m', l[k]) + (OVERHEAD + Size(m', l[k + 1])), x, y);
    }
  }

  lemma BothFrame(m: seq<Byte>, l: seq<nat>, k: nat)
    requires Linked(m, 0, l) && Spaced(l, |m|) && 0 < k && k + 1 < |l|
    ensures Frame(m, AbsorbBoth(m, l, k), l)
  {
    hide Put, Unlink, Spaced;
    StillLinked(m, l, k);
    RemoveNext(m, l, k - 1);
    var m1, l1, m' := Unlink(m, 0, l[k]), l[..k] + l[k + 1..], UnlinkTwo(m, l, k);
    assert l[k - 1] in l && l[k - 1] + OVERHEAD <= |m| && l[k] + OVERHEAD <= |m| && l[k + 1] + OVERHEAD <= |m|;
    hide Linked;
    forall x: nat, y: nat | 8 <= x <= y <= |m| && Clear(x, y, l)
      ensures AbsorbBoth(m, l, k)[x..y] == m[x..y]
    {
      UnlinkSlice(m, 0, l, k, x, y);
      assert forall p <- l1 :: p in l;
      assert Clear(x, y, l1);
      UnlinkSlice(m1, 0, l1, k, x, y);
      PutSlice(m', l[k - 1] + 16, Size(m', l[k - 1]) + ((OVERHEAD + Size(m', l[k])) + (OVERHEAD + Size(m', l[k + 1]))),
          x, y);
    }
  }

  lemma MergedFrame(m: seq<Byte>, cells: map<nat, nat>, l: seq<nat>, k: nat)
    requires Threaded(m, cells, l) && k < |l|
    ensures Frame(m, Merged(m, cells, l, k), l)
  {
    hide AbsorbBoth, Absorb, Linked, Spaced;
    if JoinsLeft(cells, l, k) && JoinsRight(cells, l, k) { BothFrame(m, l, k); }
    else if JoinsLeft(cells, l, k) { AbsorbFrame(m, l, k - 1); }
    else if JoinsRight(cells, l, k) { AbsorbFrame(m, l, k); }
  }

  lemma Gap(l: seq<nat>, b: nat, k: nat)
    requires k <= |l| && (forall i :: 0 <= i < k ==> l[i] < b) && (k < |l| ==> l[k] >= b)
    ensures Position(l, b) == k
  {
  }

  // --- the used list -------------------------------------------------------------------------------

  // Insertion at the front of the used list, whose head word is at 8.
  function PushFront(m: seq<Byte>, b: nat): (m': seq<Byte>)
    requires 16 <= |m| && b + OVERHEAD <= |m| && (Word(m, 8) != 0 ==> Word(m, 8) + OVERHEAD <= |m|)
    ensures |m'| == |m|
  {
    var first := Word(m, 8);
    var m1 := if first != 0 then Put(m, first, b) else m;
    Put(Put(Put(m1, b, 0), b + 8, first), 8, b)
  }

  lemma PushWord(m: seq<Byte>, b: nat, x: nat)
    requires 16 <= |m| < TWO64 && b + OVERHEAD <= |m| && x + 8 <= |m|
      && (Word(m, 8) != 0 ==> Word(m, 8) + OVERHEAD <= |m|)
    requires SameOrApart(8, x) && SameOrApart(b, x) && SameOrApart(b + 8, x)
      && (Word(m, 8) != 0 ==> SameOrApart(Word(m, 8), x))
    ensures Word(PushFront(m, b), x) ==
      if x == 8 then b
      else if x == b + 8 then Word(m, 8)
      else if x == b then 0
      else if Word(m, 8) != 0 && x == Word(m, 8) then b
      else Word(m, x)
  {
    hide Put, FromLE;
    var first := Word(m, 8);
    WordRange(m, 8);
    var m1 := if first != 0 then Put(m, first, b) else m;
    if first != 0 { PutAt(m, first, b, x); }
    PutAt(m1, b, 0, x);
    PutAt(Put(m1, b, 0), b + 8, first, x);
    PutAt(Put(Put(m1, b, 0), b + 8, first), 8, b, x);
  }

  lemma PushSlice(m: seq<Byte>, b: nat, u: seq<nat>, x: nat, y: nat)
    requires Linked(m, 8, u) && 16 <= |m| && b + OVERHEAD <= |m|
    requires x <= y <= |m| && (y <= 8 || 16 <= x) && Clear(x, y, u) && (b + OVERHEAD <= x || y <= b)
    ensures Word(m, 8) != 0 ==> Word(m, 8) + OVERHEAD <= |m|
    ensures PushFront(m, b)[x..y] == m[x..y]
  {
    var first := Word(m, 8);
    assert u != [] ==> u[0] in u && u[0] + OVERHEAD <= |m|;
    hide Put, Linked;
    var m1 := if first != 0 then Put(m, first, b) else m;
    if first != 0 { PutSlice(m, first, b, x, y); }
    PutSlice(m1, b, 0, x, y);
    PutSlice(Put(m1, b, 0), b + 8, first, x, y);
    PutSlice(Put(Put(m1, b, 0), b + 8, first), 8, b, x, y);
  }

  lemma PushEntry(m: seq<Byte>, b: nat, u: seq<nat>, j: nat)
    requires Linked(m, 8, u) && Spaced([b] + u, |m|) && 16 <= |m| < TWO64 && j < |u|
    ensures (Word(m, 8) != 0 ==> Word(m, 8) + OVERHEAD <= |m|) && b + OVERHEAD <= |m|
    ensures Prev(PushFront(m, b), u[j]) == if j == 0 then b else At(u, j - 1)
    ensures Next(PushFront(m, b), u[j]) == At(u, j + 1)
  {
    hide PushFront, FromLE;
    assert Word(m, 8) == u[0];
    var r := [b] + u;
    assert r[0] == b && r[j + 1] == u[j] && r[1] == u[0];
    Far(r, |m|, 0, j + 1);
    if j != 0 { Far(r, |m|, 1, j + 1); }
    PushWord(m, b, u[j]);
    PushWord(m, b, u[j] + 8);
    assert Prev(m, u[j]) == At(u, j - 1) && Next(m, u[j]) == At(u, j + 1);
  }

  lemma PushSelf(m: seq<Byte>, b: nat, u: seq<nat>)
    requires Linked(m, 8, u) && Spaced([b] + u, |m|) && 16 <= |m| < TWO64
    ensures (Word(m, 8) != 0 ==> Word(m, 8) + OVERHEAD <= |m|) && b + OVERHEAD <= |m|
    ensures Word(PushFront(m, b), 8) == b && Prev(PushFront(m, b), b) == 0 && Next(PushFront(m, b), b) == At(u, 0)
  {
    hide PushFront, FromLE;
    var r := [b] + u;
    assert r[0] == b;
    if u != [] {
      assert r[1] == u[0];
      Far(r, |m|, 0, 1);
    }
    PushWord(m, b, 8);
    PushWord(m, b, b);
    PushWord(m, b, b + 8);
  }

  lemma PushLinked(m: seq<Byte>, b: nat, u: seq<nat>)
    requires Linked(m, 8, u) && Spaced([b] + u, |m|) && 16 <= |m| < TWO64
    ensures (Word(m, 8) != 0 ==> Word(m, 8) + OVERHEAD <= |m|) && b + OVERHEAD <= |m|
    ensures Linked(PushFront(m, b), 8, [b] + u)
  {
    hide PushFront, FromLE;
    var r := [b] + u;
    PushSelf(m, b, u);
    var m' := PushFront(m, b);
    forall i {:trigger Prev(m', r[i])} {:trigger Next(m', r[i])} | 0 <= i < |r|
      ensures r[i] + OVERHEAD <= |m| && Prev(m', r[i]) == At(r, i - 1) && Next(m', r[i]) == At(r, i + 1)
    {
      if i > 0 {
        PushEntry(m, b, u, i - 1);
        FrontAt(u, b, i);
      }
    }
  }

  lemma FrontAt(u: seq<nat>, b: nat, i: nat)
    requires 0 < i <= |u|
    ensures var r := [b] + u;
      r[i] == u[i - 1] && At(r, i - 1) == (if i == 1 then b else At(u, i - 2)) && At(r, i + 1) == At(u, i)
  {
  }

  // --- lists whose words were not touched ----------------------------------------------------------

  lemma SliceWord(m: seq<Byte>, m': seq<Byte>, x: nat, y: nat, a: nat)
    requires x <= a && a + 8 <= y <= |m| && |m'| == |m| && m'[x..y] == m[x..y]
    ensures Word(m', a) == Word(m, a)
  {
    forall i | a <= i < a + 8
      ensures m'[i] == m[i]
    {
      assert m'[x..y][i - x] == m[x..y][i - x];
    }
    assert m'[a..a + 8] == m[a..a + 8];
  }

  lemma HeaderKept(m: seq<Byte>, m': seq<Byte>, o: nat)
    requires o + OVERHEAD <= |m| && |m'| == |m| && m'[o..o + OVERHEAD] == m[o..o + OVERHEAD]
    ensures Prev(m', o) == Prev(m, o) && Next(m', o) == Next(m, o) && Size(m', o) == Size(m, o)
  {
    SliceWord(m, m', o, o + OVERHEAD, o);
    SliceWord(m, m', o, o + OVERHEAD, o + 8);
    SliceWord(m, m', o, o + OVERHEAD, o + 16);
  }

  ghost predicate HeadersKept(m: seq<Byte>, m': seq<Byte>, head: nat, l: seq<nat>) {
    && |m'| == |m| && head + 8 <= |m| && m'[head..head + 8] == m[head..head + 8]
    && forall o {:trigger o in l} :: o in l ==> o + OVERHEAD <= |m| && m'[o..o + OVERHEAD] == m[o..o + OVERHEAD]
  }

  lemma ListKept(m: seq<Byte>, m': seq<Byte>, head: nat, l: seq<nat>)
    requires Linked(m, head, l) && HeadersKept(m, m', head, l)
    ensures Linked(m', head, l)
    ensures forall o <- l :: Size(m', o) == Size(m, o)
  {
    SliceWord(m, m', head, head + 8, head);
    forall o | o in l
      ensures Prev(m', o) == Prev(m, o) && Next(m', o) == Next(m, o) && Size(m', o) == Size(m, o)
    {
      HeaderKept(m, m', o);
    }
    assert forall i {:trigger l[i]} :: 0 <= i < |l| ==> l[i] in l;
    LinkedSame(m, m', head, l);
  }

  lemma ThreadedKept(m: seq<Byte>, m': seq<Byte>, cells: map<nat, nat>, l: seq<nat>)
    requires Threaded(m, cells, l) && HeadersKept(m, m', 0, l)
    ensures Threaded(m', cells, l)
  {
    ListKept(m, m', 0, l);
  }

  // The first block of an empty list: only the head word is written.
  lemma FirstBlock(m: seq<Byte>, cells: map<nat, nat>, b: nat)
    requires START <= b && b + OVERHEAD <= |m| < TWO64 && b in cells && Size(m, b) == cells[b]
    ensures Threaded(Put(m, 0, b), cells, [b]) <==> Prev(m, b) == 0 && Next(m, b) == 0
    ensures forall x: nat, y: nat {:trigger Put(m, 0, b)[x..y]} :: 8 <= x <= y <= |m| ==> Put(m, 0, b)[x..y] == m[x..y]
  {
    var m' := Put(m, 0, b);
    forall x: nat, y: nat | 8 <= x <= y <= |m|
      ensures m'[x..y] == m[x..y]
    {
      PutSlice(m, 0, b, x, y);
    }
    PutAt(m, 0, b, 0);
    PutAt(m, 0, b, b);
    PutAt(m, 0, b, b + 8);
    PutAt(m, 0, b, b + 16);
    assert [b][0] == b;
    assert Prev(m', [b][0]) == Prev(m, b) && Next(m', [b][0]) == Next(m, b);
  }
}
