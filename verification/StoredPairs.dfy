// Key-value pairs in the payloads of used blocks: the key, a NUL, the value, a NUL.
module StoredPairs {
  import opened Words
  import opened Heap
  import opened HeapMemory

  datatype Pair = Pair(key: seq<Byte>, value: seq<Byte>)

  ghost predicate NulFree(s: seq<Byte>) { forall i :: 0 <= i < |s| ==> s[i] != 0 }

  function Encode(p: Pair): seq<Byte> { p.key + [0] + p.value + [0] }

  // Block b holds the pair p.
  ghost predicate Reads(m: seq<Byte>, cells: map<nat, nat>, b: nat, p: Pair) {
    && b in cells && |Encode(p)| <= cells[b] && End(cells, b) <= |m|
    && m[b + OVERHEAD..b + OVERHEAD + |Encode(p)|] == Encode(p) && NulFree(p.key) && NulFree(p.value)
  }

  // The blocks in stored are used and hold their pairs.
  ghost predicate Stores(m: seq<Byte>, h: State, stored: map<nat, Pair>) {
    forall b <- stored :: b in h.used && Reads(m, h.cells, b, stored[b])
  }

  ghost predicate AllStored(h: State, stored: map<nat, Pair>) { forall b <- h.used :: b in stored }

  // The finite map that a set of pairs with different keys represents.
  ghost predicate Represent(stored: map<nat, Pair>, contents: map<seq<Byte>, seq<Byte>>) {
    && (forall b, c :: b in stored && c in stored && b != c ==> stored[b].key != stored[c].key)
    && (forall b <- stored :: stored[b].key in contents && contents[stored[b].key] == stored[b].value)
    && (forall k <- contents :: exists b :: b in stored && stored[b].key == k)
  }

  lemma ReadsKept(m: seq<Byte>, m': seq<Byte>, cells: map<nat, nat>, cells': map<nat, nat>, b: nat, p: Pair)
    requires Reads(m, cells, b, p) && PayloadKept(m, m', cells, b) && b in cells' && cells'[b] == cells[b]
    ensures Reads(m', cells', b, p)
  {
    var a, n := b + OVERHEAD, |Encode(p)|;
    assert m[a..a + n] == m[a..End(cells, b)][..n];
    assert m'[a..a + n] == m'[a..End(cells, b)][..n];
  }

  lemma StoresAlloc(m: seq<Byte>, m': seq<Byte>, h: State, n: nat, stored: map<nat, Pair>)
    requires Represents(m, h) && PayloadsKept(m, m', h) && Stores(m, h, stored)
    requires (forall o <- h.free :: o in h.cells) && FirstFit(h.cells, h.free, n) < |h.free|
    ensures var g := Alloc(h, n);
      && Stores(m', g, stored) && g.used != [] && g.used[0] !in h.used && g.used[0] in g.cells
          && n <= g.cells[g.used[0]]
      && forall o :: o in g.used <==> o == g.used[0] || o in h.used
  {
    var g := Alloc(h, n);
    AllocOk(h, n, |m|);
    AllocTakes(h, n, |m|);
    hide Alloc, Reads, Represents, Ok;
    forall b | b in stored
      ensures b in g.used && Reads(m', g.cells, b, stored[b])
    {
      AllocMember(h, n, |m|, b);
      ReadsKept(m, m', h.cells, g.cells, b, stored[b]);
    }
    forall o ensures o in g.used <==> o == g.used[0] || o in h.used { AllocMember(h, n, |m|, o); }
  }

  lemma AllocMember(h: State, n: nat, hi: nat, o: nat)
    requires Ok(h, hi) && (forall o <- h.free :: o in h.cells) && FirstFit(h.cells, h.free, n) < |h.free|
    ensures var g := Alloc(h, n);
      g.used != [] && g.used[0] !in h.used && (o in g.used <==> o == g.used[0] || o in h.used)
          && (o in h.used ==> o in h.cells)
  {
    hide Split, Coalesced, Tiled;
  }

  lemma StoresWrite(m: seq<Byte>, m': seq<Byte>, h: State, b: nat, p: Pair, stored: map<nat, Pair>)
    requires Stores(m, h, stored) && b in h.used && b !in stored && b in h.cells && End(h.cells, b) <= |m| == |m'|
    requires |Encode(p)| <= h.cells[b] && NulFree(p.key) && NulFree(p.value)
    requires m'[b + OVERHEAD..b + OVERHEAD + |Encode(p)|] == Encode(p)
    requires forall o <- h.used :: o != b ==> PayloadKept(m, m', h.cells, o)
    ensures Stores(m', h, stored[b := p])
  {
    var t := stored[b := p];
    hide Encode, PayloadKept;
    forall o | o in t
      ensures o in h.used && Reads(m', h.cells, o, t[o])
    {
      if o != b { ReadsKept(m, m', h.cells, h.cells, o, stored[o]); }
    }
  }

  lemma StoresFree(m: seq<Byte>, m': seq<Byte>, h: State, b: nat, stored: map<nat, Pair>)
    requires Represents(m, h) && b in h.used && b in h.cells && (forall o <- h.free :: o in h.cells)
      && Stores(m, h, stored)
    requires PayloadsKept(m, m', Heap.Free(h, b))
    ensures Stores(m', Heap.Free(h, b), stored - {b})
    ensures forall o :: o in Heap.Free(h, b).used <==> o in h.used && o != b
  {
    var g := Heap.Free(h, b);
    FreeOk(h, b, |m|);
    hide Heap.Free, Reads, Represents, Ok;
    forall o | o in stored && o != b
      ensures o in g.used && Reads(m', g.cells, o, stored[o])
    {
      KeptBack(m, m', h.cells, g.cells, o);
      ReadsKept(m, m', h.cells, g.cells, o, stored[o]);
    }
  }

  lemma KeptBack(m: seq<Byte>, m': seq<Byte>, cells: map<nat, nat>, cells': map<nat, nat>, o: nat)
    requires PayloadKept(m, m', cells', o) && o in cells' && o in cells && cells[o] == cells'[o]
    ensures PayloadKept(m, m', cells, o)
  {
  }
}
