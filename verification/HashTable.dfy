// The hash table over the allocator's bytes, without concurrency: put and get implement a finite map, and
// the table can be rebuilt from the used list.
module HashTables {
  import opened Words
  import opened Heap
  import opened Links
  import opened HeapMemory
  import opened FileBackedBuffers
  import opened StoredPairs

  type ByteString = seq<Byte>

  // --- chains ------------------------------------------------------------------------------------------------------

  // The newest of the first n buckets whose key belongs to slot s; -1 is the null pointer.
  ghost function LastBefore(keys: seq<ByteString>, slotOf: ByteString -> nat, s: nat, n: nat): (r: int)
    requires n <= |keys|
    ensures -1 <= r < n && (r >= 0 ==> slotOf(keys[r]) == s) && forall j :: r < j < n ==> slotOf(keys[j]) != s
  {
    if n == 0 then -1 else if slotOf(keys[n - 1]) == s then n - 1 else LastBefore(keys, slotOf, s, n - 1)
  }

  // Every slot head is the newest bucket of its chain, and every bucket is followed by the next older one.
  ghost predicate Chains(heads: seq<int>, nexts: seq<int>, keys: seq<ByteString>, slotOf: ByteString -> nat) {
    && |nexts| == |keys|
    && (forall s :: 0 <= s < |heads| ==> heads[s] == LastBefore(keys, slotOf, s, |keys|))
    && (forall i :: 0 <= i < |nexts| ==> nexts[i] == LastBefore(keys, slotOf, slotOf(keys[i]), i))
  }

  lemma {:induction false} LastSame(keys: seq<ByteString>, more: seq<ByteString>, slotOf: ByteString -> nat, s: nat,
      n: nat)
    requires n <= |keys|
    ensures LastBefore(keys + more, slotOf, s, n) == LastBefore(keys, slotOf, s, n)
  {
    if n > 0 { LastSame(keys, more, slotOf, s, n - 1); }
  }

  lemma EmptyChains(slots: nat, slotOf: ByteString -> nat)
    ensures Chains(seq(slots, _ => -1), [], [], slotOf)
  {
  }

  // A bucket put in front of its chain.
  lemma ChainsGrow(heads: seq<int>, nexts: seq<int>, keys: seq<ByteString>, slotOf: ByteString -> nat, k: ByteString)
    requires Chains(heads, nexts, keys, slotOf) && slotOf(k) < |heads|
    ensures Chains(heads[slotOf(k) := |keys|], nexts + [heads[slotOf(k)]], keys + [k], slotOf)
  {
    var keys', nexts', heads' := keys + [k], nexts + [heads[slotOf(k)]], heads[slotOf(k) := |keys|];
    forall s | 0 <= s < |heads'|
      ensures heads'[s] == LastBefore(keys', slotOf, s, |keys'|)
    {
      LastSame(keys, [k], slotOf, s, |keys|);
    }
    forall i | 0 <= i < |nexts'|
      ensures nexts'[i] == LastBefore(keys', slotOf, slotOf(keys'[i]), i)
    {
      if i < |nexts| { LastSame(keys, [k], slotOf, slotOf(keys[i]), i); }
          else { LastSame(keys, [k], slotOf, slotOf(k), i); }
    }
  }

  // --- buckets and payloads ----------------------------------------------------------------------------------------

  ghost predicate OwnsAt(payloads: seq<nat>, keys: seq<ByteString>, stored: map<nat, Pair>, i: nat)
    requires i < |payloads| == |keys|
  {
    payloads[i] >= OVERHEAD && payloads[i] - OVERHEAD in stored && stored[payloads[i] - OVERHEAD].key == keys[i]
  }

  // One bucket per key, and one stored pair per bucket.
  ghost predicate Owns(payloads: seq<nat>, keys: seq<ByteString>, stored: map<nat, Pair>) {
    && |payloads| == |keys|
    && (forall i :: 0 <= i < |payloads| ==> OwnsAt(payloads, keys, stored, i))
    && (forall i, j :: 0 <= i < j < |keys| ==> keys[i] != keys[j])
    && (forall b <- stored :: exists i :: 0 <= i < |payloads| && payloads[i] == b + OVERHEAD)
  }

  lemma OwnsNew(payloads: seq<nat>, keys: seq<ByteString>, stored: map<nat, Pair>, b: nat, p: Pair)
    requires Owns(payloads, keys, stored) && b !in stored && forall i :: 0 <= i < |keys| ==> keys[i] != p.key
    ensures Owns(payloads + [b + OVERHEAD], keys + [p.key], stored[b := p])
  {
    var payloads', stored' := payloads + [b + OVERHEAD], stored[b := p];
    forall i | 0 <= i < |payloads'|
      ensures OwnsAt(payloads', keys + [p.key], stored', i)
    {
      if i < |payloads| { assert OwnsAt(payloads, keys, stored, i); }
    }
    forall c | c in stored'
      ensures exists i :: 0 <= i < |payloads'| && payloads'[i] == c + OVERHEAD
    {
      if c == b {
        assert payloads'[|payloads|] == c + OVERHEAD;
      } else {
        var i :| 0 <= i < |payloads| && payloads[i] == c + OVERHEAD;
        assert payloads'[i] == c + OVERHEAD;
      }
    }
  }

  lemma OwnsReplaced(payloads: seq<nat>, keys: seq<ByteString>, stored: map<nat, Pair>, n: nat, b: nat, p: Pair)
    requires Owns(payloads, keys, stored) && b !in stored && n < |keys| && keys[n] == p.key
    ensures OwnsAt(payloads, keys, stored, n) && Owns(payloads[n := b + OVERHEAD], keys,
      stored[b := p] - {payloads[n] - OVERHEAD})
  {
    var old_ := payloads[n] - OVERHEAD;
    assert OwnsAt(payloads, keys, stored, n);
    var payloads', stored' := payloads[n := b + OVERHEAD], stored[b := p] - {old_};
    forall i | 0 <= i < |payloads'|
      ensures OwnsAt(payloads', keys, stored', i)
    {
      assert OwnsAt(payloads, keys, stored, i);
      if i != n { assert keys[i] != keys[n] by { if i < n { assert keys[i] != keys[n]; } } }
    }
    forall c | c in stored'
      ensures exists i :: 0 <= i < |payloads'| && payloads'[i] == c + OVERHEAD
    {
      if c == b {
        assert payloads'[n] == c + OVERHEAD;
      } else {
        var i :| 0 <= i < |payloads| && payloads[i] == c + OVERHEAD;
        assert payloads'[i] == c + OVERHEAD;
      }
    }
  }

  // --- the map -----------------------------------------------------------------------------------------------------

  lemma RepresentNew(stored: map<nat, Pair>, contents: map<ByteString, ByteString>, b: nat, p: Pair)
    requires Represent(stored, contents) && b !in stored && p.key !in contents
    ensures Represent(stored[b := p], contents[p.key := p.value])
  {
    var t, c := stored[b := p], contents[p.key := p.value];
    forall k | k in c ensures exists x :: x in t && t[x].key == k {
      if k == p.key {
        assert t[b].key == k;
      } else {
        var x :| x in stored && stored[x].key == k;
        assert t[x].key == k;
      }
    }
  }

  lemma RepresentReplaced(stored: map<nat, Pair>, contents: map<ByteString, ByteString>, a: nat, b: nat, p: Pair)
    requires Represent(stored, contents) && b !in stored && a in stored && stored[a].key == p.key
    ensures Represent(stored[b := p] - {a}, contents[p.key := p.value])
  {
    var t, c := stored[b := p] - {a}, contents[p.key := p.value];
    forall k | k in c ensures exists x :: x in t && t[x].key == k {
      if k == p.key {
        assert t[b].key == k;
      } else {
        var x :| x in stored && stored[x].key == k;
        assert t[x].key == k;
      }
    }
  }

  lemma KeyHasBucket(payloads: seq<nat>, keys: seq<ByteString>, stored: map<nat, Pair>, contents: map<ByteString,
      ByteString>, k: ByteString)
    requires Owns(payloads, keys, stored) && Represent(stored, contents) && k in contents
    ensures exists i :: 0 <= i < |keys| && keys[i] == k
  {
    var b :| b in stored && stored[b].key == k;
    var i :| 0 <= i < |payloads| && payloads[i] == b + OVERHEAD;
    assert OwnsAt(payloads, keys, stored, i);
    assert keys[i] == k;
  }

  lemma KeyBucket(payloads: seq<nat>, keys: seq<ByteString>, stored: map<nat, Pair>, contents: map<ByteString,
      ByteString>, k: ByteString)
    requires Owns(payloads, keys, stored) && Represent(stored, contents)
    ensures k in contents <==> exists i :: 0 <= i < |keys| && keys[i] == k
    ensures forall i :: 0 <= i < |keys| ==>
              OwnsAt(payloads, keys, stored, i) && keys[i] in contents
                  && contents[keys[i]] == stored[payloads[i] - OVERHEAD].value
  {
    forall i | 0 <= i < |keys|
      ensures OwnsAt(payloads, keys, stored, i) && keys[i] in contents
        && contents[keys[i]] == stored[payloads[i] - OVERHEAD].value
    {
      assert OwnsAt(payloads, keys, stored, i);
      var b := payloads[i] - OVERHEAD;
      assert b in stored && stored[b].key == keys[i];
    }
    if k in contents { KeyHasBucket(payloads, keys, stored, contents, k); }
  }

  // --- reading strings -----------------------------------------------------------------------------------------------

  // A string that ends with a NUL at position a of memory.
  ghost predicate StringAt(m: seq<Byte>, a: nat, s: ByteString) {
    a + |s| < |m| && m[a..a + |s|] == s && m[a + |s|] == 0 && NulFree(s)
  }

  // The key is at the start of a payload, the value after the first NUL.
  lemma PairStrings(m: seq<Byte>, cells: map<nat, nat>, b: nat, p: Pair)
    requires Reads(m, cells, b, p)
    ensures StringAt(m, b + OVERHEAD, p.key) && StringAt(m, b + OVERHEAD + |p.key| + 1, p.value)
  {
    var a, e := b + OVERHEAD, Encode(p);
    var w := m[a..a + |e|];
    assert w == e;
    assert e[..|p.key|] == p.key && w[..|p.key|] == m[a..a + |p.key|];
    assert e[|p.key|] == 0 && w[|p.key|] == m[a + |p.key|];
    var c := |p.key| + 1;
    assert e[c..c + |p.value|] == p.value && w[c..c + |p.value|] == m[a + c..a + c + |p.value|];
    assert e[c + |p.value|] == 0 && w[c + |p.value|] == m[a + c + |p.value|];
  }

  lemma StringByte(m: seq<Byte>, a: nat, s: ByteString, i: nat)
    requires StringAt(m, a, s) && i <= |s|
    ensures a + i < |m| && (m[a + i] == 0 <==> i == |s|) && (i < |s| ==> m[a + i] == s[i])
  {
    if i < |s| { assert m[a..a + |s|][i] == s[i]; }
  }

  lemma UsedEntry(m: seq<Byte>, g: State, k: nat)
    requires Represents(m, g)
    ensures Word(m, 8) == At(g.used, 0) && 16 <= |m| && Distinct(g.used) && (k >= |g.used| ==> At(g.used, k) == 0)
    ensures k < |g.used| ==>
      var b := g.used[k];
      At(g.used, k) == b && b != 0 && b + OVERHEAD <= |m| && b in g.used && b in g.cells
          && Next(m, b) == At(g.used, k + 1)
  {
    if k < |g.used| {
      var b := g.used[k];
      assert b in g.used && b in g.cells;
      assert Next(m, b) == At(g.used, k + 1);
      assert START <= b by { Bounds(g.cells, |m|); }
    }
  }

  // The first i blocks of the used list have been turned into buckets.
  ghost predicate Rebuilt(used: seq<nat>, i: nat, payloads: seq<nat>, keys: seq<ByteString>, seen: map<nat, Pair>,
      pairs: map<nat,
      Pair>) {
    && i <= |used| && |payloads| == i && Owns(payloads, keys, seen)
    && (forall b :: b in seen <==> b in used[..i])
    && (forall b <- seen :: b in pairs && seen[b] == pairs[b])
  }

  lemma RebuiltStart(used: seq<nat>, pairs: map<nat, Pair>)
    ensures Rebuilt(used, 0, [], [], map[], pairs)
  {
  }

  lemma SameSlot(slotOf: ByteString -> nat, k: ByteString, key: ByteString)
    requires k == key
    ensures slotOf(k) == slotOf(key)
  {
  }

  lemma RebuildFacts(m: seq<Byte>, h: State, pairs: map<nat, Pair>, b: nat)
    requires Stores(m, h, pairs) && AllStored(h, pairs) && b in h.used
    ensures b in pairs && Reads(m, h.cells, b, pairs[b])
  {
    hide Reads;
  }

  lemma RebuiltStep(used: seq<nat>, i: nat, payloads: seq<nat>, keys: seq<ByteString>, seen: map<nat, Pair>,
      pairs: map<nat, Pair>,
                    c: map<ByteString, ByteString>, b: nat, p: Pair)
    requires Rebuilt(used, i, payloads, keys, seen, pairs) && i < |used| && Distinct(used) && Represent(pairs, c)
    requires b == used[i] && b in pairs && p == pairs[b]
    ensures Rebuilt(used, i + 1, payloads + [b + OVERHEAD], keys + [p.key], seen[b := p], pairs) && |payloads| == |keys|
  {
    assert b !in used[..i];
    forall j | 0 <= j < |keys|
      ensures keys[j] != pairs[b].key
    {
      assert OwnsAt(payloads, keys, seen, j);
    }
    OwnsNew(payloads, keys, seen, b, pairs[b]);
    assert used[..i + 1] == used[..i] + [b];
  }

  lemma RebuiltAll(used: seq<nat>, i: nat, payloads: seq<nat>, keys: seq<ByteString>, seen: map<nat, Pair>,
      pairs: map<nat, Pair>)
    requires Rebuilt(used, i, payloads, keys, seen, pairs) && i == |used| && forall b :: b in pairs <==> b in used
    ensures seen == pairs && Owns(payloads, keys, pairs)
  {
    hide Owns;
    assert used[..i] == used;
    assert seen.Keys == pairs.Keys;
  }

  // The slot heads, and the next pointer and payload of every bucket.
  datatype Buckets = Buckets(heads: seq<int>, nexts: seq<int>, payloads: seq<nat>)

  // What they mean: the key of every bucket, the pair in every used block, and the map.
  datatype View = View(keys: seq<ByteString>, stored: map<nat, Pair>, contents: map<ByteString, ByteString>)

  datatype Snap = Snap(k: Buckets, v: View, slotOf: ByteString -> nat)

  // The buckets and the stored pairs agree; there may be other used blocks.
  ghost predicate Agree(m: seq<Byte>, h: State, t: Snap) {
    && (forall k :: t.slotOf(k) < |t.k.heads|)
    && Stores(m, h, t.v.stored) && Represent(t.v.stored, t.v.contents)
    && Chains(t.k.heads, t.k.nexts, t.v.keys, t.slotOf) && Owns(t.k.payloads, t.v.keys, t.v.stored)
  }

  lemma SameBlocks(m: seq<Byte>, h: State, pairs: map<nat, Pair>)
    requires Stores(m, h, pairs) && AllStored(h, pairs)
    ensures forall b :: b in pairs <==> b in h.used
  {
    hide Reads;
  }

  lemma Gather(m: seq<Byte>, h: State, t: Snap)
    requires (forall k :: t.slotOf(k) < |t.k.heads|) && Stores(m, h, t.v.stored) && Represent(t.v.stored, t.v.contents)
    requires Chains(t.k.heads, t.k.nexts, t.v.keys, t.slotOf) && Owns(t.k.payloads, t.v.keys, t.v.stored)
    ensures Agree(m, h, t)
  {
    hide Stores, Represent, Chains, Owns;
  }

  lemma Sizes(m: seq<Byte>, h: State, t: Snap, k: ByteString)
    requires Agree(m, h, t)
    ensures |t.k.payloads| == |t.v.keys| == |t.k.nexts| && t.slotOf(k) < |t.k.heads|
    ensures k in t.v.contents <==> exists i :: 0 <= i < |t.v.keys| && t.v.keys[i] == k
  {
    KeyBucket(t.k.payloads, t.v.keys, t.v.stored, t.v.contents, k);
  }

  lemma StoredAt(m: seq<Byte>, h: State, payloads: seq<nat>, keys: seq<ByteString>, stored: map<nat, Pair>,
      i: nat) returns (b: nat)
    requires Stores(m, h, stored) && i < |payloads| == |keys| && OwnsAt(payloads, keys, stored, i)
    ensures payloads[i] == b + OVERHEAD && b in stored && stored[b].key == keys[i] && Reads(m, h.cells, b, stored[b])
  {
    b := payloads[i] - OVERHEAD;
    hide Reads;
  }

  lemma Parts(m: seq<Byte>, h: State, t: Snap)
    requires Agree(m, h, t)
    ensures Stores(m, h, t.v.stored) && Represent(t.v.stored, t.v.contents) && Owns(t.k.payloads, t.v.keys, t.v.stored)
      && |t.k.payloads| == |t.v.keys|
    ensures Chains(t.k.heads, t.k.nexts, t.v.keys, t.slotOf) && forall k :: t.slotOf(k) < |t.k.heads|
  {
    hide Stores, Represent, Chains, OwnsAt;
  }

  // Where the key and the value of bucket i are.
  lemma BucketStrings(m: seq<Byte>, h: State, t: Snap, i: nat)
    requires Agree(m, h, t) && i < |t.k.payloads|
    ensures |t.k.payloads| == |t.v.keys| && t.v.keys[i] in t.v.contents
    ensures StringAt(m, t.k.payloads[i], t.v.keys[i])
      && StringAt(m, t.k.payloads[i] + |t.v.keys[i]| + 1, t.v.contents[t.v.keys[i]])
  {
    hide *;
    Parts(m, h, t);
    KeyBucket(t.k.payloads, t.v.keys, t.v.stored, t.v.contents, t.v.keys[i]);
    var b := StoredAt(m, h, t.k.payloads, t.v.keys, t.v.stored, i);
    PairStrings(m, h.cells, b, t.v.stored[b]);
  }

  // The walk along a chain has reached bucket, and none of the buckets from n on has the key.
  ghost predicate Walked(t: Snap, key: ByteString, n: nat, bucket: int) {
    && n <= |t.v.keys| && bucket == LastBefore(t.v.keys, t.slotOf, t.slotOf(key), n)
    && forall j :: n <= j < |t.v.keys| ==> t.v.keys[j] != key
  }

  lemma WalkStart(m: seq<Byte>, h: State, t: Snap, key: ByteString)
    requires Agree(m, h, t)
    ensures t.slotOf(key) < |t.k.heads| && -1 <= t.k.heads[t.slotOf(key)]
      && Walked(t, key, |t.v.keys|, t.k.heads[t.slotOf(key)])
  {
    hide LastBefore;
  }

  lemma WalkNext(m: seq<Byte>, h: State, t: Snap, key: ByteString, n: nat, b: nat)
    requires Agree(m, h, t) && Walked(t, key, n, b)
    ensures b < n <= |t.v.keys| == |t.k.nexts| == |t.k.payloads|
    ensures -1 <= t.k.nexts[b] && (t.v.keys[b] != key ==> Walked(t, key, b, t.k.nexts[b]))
  {
    Parts(m, h, t);
    hide Agree;
    NextBucket(t.k.heads, t.k.nexts, t.v.keys, t.slotOf, b);
    hide Owns, Represent, Stores, Chains, LastBefore;
    if t.v.keys[b] != key { WalkOn(t, key, n, b); }
  }

  lemma NextBucket(heads: seq<int>, nexts: seq<int>, keys: seq<ByteString>, slotOf: ByteString -> nat, b: nat)
    requires Chains(heads, nexts, keys, slotOf) && b < |keys|
    ensures |nexts| == |keys| && nexts[b] == LastBefore(keys, slotOf, slotOf(keys[b]), b)
  {
  }

  lemma WalkOn(t: Snap, key: ByteString, n: nat, b: nat)
    requires Walked(t, key, n, b) && b < |t.v.keys| == |t.k.nexts| && t.v.keys[b] != key
    requires t.k.nexts[b] == LastBefore(t.v.keys, t.slotOf, t.slotOf(t.v.keys[b]), b)
    ensures Walked(t, key, b, t.k.nexts[b])
  {
    forall j | b <= j < |t.v.keys|
      ensures t.v.keys[j] != key
    {
      if b < j < n { assert t.slotOf(t.v.keys[j]) != t.slotOf(key); }
    }
  }

  // The outcome of a search.
  ghost predicate Located(keys: seq<ByteString>, key: ByteString, bucket: int) {
    if bucket >= 0 then bucket < |keys| && keys[bucket] == key
    else bucket == -1 && forall i :: 0 <= i < |keys| ==> keys[i] != key
  }

  lemma WalkEnd(t: Snap, key: ByteString, n: nat)
    requires Walked(t, key, n, -1)
    ensures Located(t.v.keys, key, -1)
  {
  }

  lemma WalkFound(t: Snap, key: ByteString, b: nat)
    requires b < |t.v.keys| && t.v.keys[b] == key
    ensures Located(t.v.keys, key, b)
  {
  }

  // A bucket in front of the chain of slot s.
  function Prepend(k: Buckets, s: nat, pointer: nat): Buckets
    requires s < |k.heads|
  {
    Buckets(k.heads[s := |k.payloads|], k.nexts + [k.heads[s]], k.payloads + [pointer])
  }

  function Replace(k: Buckets, n: nat, pointer: nat): Buckets
    requires n < |k.payloads|
  {
    k.(payloads := k.payloads[n := pointer])
  }

  ghost function WithPair(v: View, b: nat, p: Pair): View {
    View(v.keys + [p.key], v.stored[b := p], v.contents[p.key := p.value])
  }

  ghost function WithOther(v: View, a: nat, b: nat, p: Pair): View {
    View(v.keys, v.stored[b := p] - {a}, v.contents[p.key := p.value])
  }

  // A new bucket for a new key.
  ghost function WithBucket(t: Snap, b: nat, p: Pair): Snap
    requires t.slotOf(p.key) < |t.k.heads|
  {
    Snap(Prepend(t.k, t.slotOf(p.key), b + OVERHEAD), WithPair(t.v, b, p), t.slotOf)
  }

  // Another payload for bucket n, whose old block a is given back.
  ghost function WithPayload(t: Snap, n: nat, a: nat, b: nat, p: Pair): Snap
    requires n < |t.k.payloads|
  {
    Snap(Replace(t.k, n, b + OVERHEAD), WithOther(t.v, a, b, p), t.slotOf)
  }

  lemma AgreeNew(m: seq<Byte>, h: State, m': seq<Byte>, h': State, t: Snap, b: nat, p: Pair)
    requires Agree(m, h, t) && b !in t.v.stored && Stores(m', h', t.v.stored[b := p]) && Located(t.v.keys, p.key, -1)
    ensures t.slotOf(p.key) < |t.k.heads| && Agree(m', h', WithBucket(t, b, p))
  {
    Parts(m, h, t);
    Sizes(m, h, t, p.key);
    assert (forall i :: 0 <= i < |t.v.keys| ==> t.v.keys[i] != p.key) && p.key !in t.v.contents;
    var u := WithBucket(t, b, p);
    hide Agree, Stores, Represent, Chains, Owns;
    OwnsNew(t.k.payloads, t.v.keys, t.v.stored, b, p);
    RepresentNew(t.v.stored, t.v.contents, b, p);
    ChainsGrow(t.k.heads, t.k.nexts, t.v.keys, t.slotOf, p.key);
    Gather(m', h', u);
  }

  lemma AgreeReplaced(m: seq<Byte>, h: State, m': seq<Byte>, h': State, t: Snap, n: nat, a: nat, b: nat, p: Pair)
    requires Agree(m, h, t) && b !in t.v.stored && n < |t.k.payloads| && t.k.payloads[n] == a + OVERHEAD
      && Located(t.v.keys, p.key, n)
    requires Stores(m', h', t.v.stored[b := p] - {a})
    ensures Agree(m', h', WithPayload(t, n, a, b, p))
  {
    Parts(m, h, t);
    assert n < |t.v.keys| && t.v.keys[n] == p.key;
    var u := WithPayload(t, n, a, b, p);
    hide Agree, Stores, Represent, Chains, Owns;
    OwnsReplaced(t.k.payloads, t.v.keys, t.v.stored, n, b, p);
    RepresentReplaced(t.v.stored, t.v.contents, a, b, p);
    Gather(m', h', u);
  }

  lemma StoresLess(m: seq<Byte>, h: State, stored: map<nat, Pair>, a: nat)
    requires Stores(m, h, stored)
    ensures Stores(m, h, stored - {a})
  {
    hide Reads;
  }

  // After block a, which no bucket owns, has been freed.
  lemma GivenBack(m: seq<Byte>, h: State, m': seq<Byte>, t: Snap, a: nat)
    requires Represents(m, h) && Agree(m, h, t) && UsedPlus(h, t.v.stored, a) && a !in t.v.stored
    requires a in h.used && a in h.cells && (forall o <- h.free :: o in h.cells) && PayloadsKept(m, m', Heap.Free(h, a))
    ensures Agree(m', Heap.Free(h, a), t) && AllStored(Heap.Free(h, a), t.v.stored)
  {
    hide *;
    Parts(m, h, t);
    StoresFree(m, m', h, a, t.v.stored);
    assert t.v.stored - {a} == t.v.stored;
    Gather(m', Heap.Free(h, a), t);
    AllStoredWithout(h, Heap.Free(h, a), t.v.stored, a);
  }

  // Who is on the used list after the steps of put.
  ghost predicate UsedPlus(h: State, stored: map<nat, Pair>, b: nat) {
    forall o :: o in h.used <==> o == b || o in stored
  }

  lemma AllStoredNew(h: State, stored: map<nat, Pair>, b: nat, p: Pair)
    requires UsedPlus(h, stored, b)
    ensures AllStored(h, stored[b := p])
  {
  }

  lemma AllStoredWithout(h: State, h': State, stored: map<nat, Pair>, a: nat)
    requires UsedPlus(h, stored, a) && forall o :: o in h'.used <==> o in h.used && o != a
    ensures AllStored(h', stored)
  {
  }

  lemma UsedOther(h: State, stored: map<nat, Pair>, a: nat, b: nat, p: Pair)
    requires UsedPlus(h, stored, b) && a in stored && a != b
    ensures UsedPlus(h, stored[b := p] - {a}, a) && a !in stored[b := p] - {a}
  {
  }

  lemma WithPairParts(v: View, b: nat, p: Pair)
    ensures WithPair(v, b, p).stored == v.stored[b := p] && WithPair(v, b, p).contents == v.contents[p.key := p.value]
  {
  }

  lemma WithOtherParts(v: View, a: nat, b: nat, p: Pair)
    ensures WithOther(v, a, b, p).stored == v.stored[b := p] - {a}
      && WithOther(v, a, b, p).contents == v.contents[p.key := p.value]
  {
  }

  class HashTable {
    const buffer: FileBackedBuffer
    const slotOf: ByteString -> nat  // the hash of a key modulo the number of slots
    var buckets: Buckets
    ghost var view: View

    ghost function Snapshot(): Snap
      reads this
    {
      Snap(buckets, view, slotOf)
    }

    // What lookups depend on: the buckets and the blocks they own, but not the free list.
    ghost predicate Searchable()
      reads this, buffer, buffer.mem
    {
      Agree(buffer.mem[..], buffer.h, Snapshot())
    }

    ghost predicate Valid()
      reads this, buffer, buffer.mem
    {
      buffer.Valid() && Searchable() && AllStored(buffer.h, view.stored)
    }

    // Rebuilds the table from the used list of a buffer whose blocks hold pairs with different keys: whatever
    // finite map these pairs represent is the contents of the table.
    constructor (buffer: FileBackedBuffer, slots: nat, slotOf: ByteString -> nat, ghost pairs: map<nat, Pair>,
        ghost c: map<ByteString,
        ByteString>)
      requires buffer.Valid() && forall k :: slotOf(k) < slots
      requires Stores(buffer.mem[..], buffer.h, pairs) && AllStored(buffer.h, pairs) && Represent(pairs, c)
      ensures Valid() && this.buffer == buffer && this.slotOf == slotOf && view.stored == pairs && view.contents == c
    {
      this.buffer := buffer;
      this.slotOf := slotOf;
      buckets := Buckets(seq(slots, _ => -1), [], []);
      view := View([], map[], c);
      new;
      EmptyChains(slots, slotOf);
      hide *;
      Rebuild(pairs, c);
    }

    // What the parts of the table are.
    lemma Opened()
      requires Searchable()
      ensures Agree(buffer.mem[..], buffer.h, Snapshot())
      ensures Snapshot().k == buckets && Snapshot().v == view && Snapshot().slotOf == slotOf
    {
      hide Agree, Represents;
    }

    lemma OpenedAll()
      requires Valid()
      ensures Searchable() && AllStored(buffer.h, view.stored) && buffer.Valid() && Represents(buffer.mem[..], buffer.h)
    {
      hide AllStored, Searchable, Represents;
    }

    lemma SnapshotIs()
      ensures Snapshot().k == buckets && Snapshot().v == view && Snapshot().slotOf == slotOf
    {
    }

    lemma ValidAgain(m: seq<Byte>, h: State, t: Snap)
      requires buffer.mem[..] == m && buffer.h == h && Snapshot() == t && Represents(m, h) && Agree(m, h, t)
        && AllStored(h, t.v.stored)
      ensures Valid()
    {
      hide Agree, AllStored, Represents;
    }

    lemma ValidIs()
      requires buffer.Valid() && Agree(buffer.mem[..], buffer.h, Snapshot()) && AllStored(buffer.h, view.stored)
      ensures Valid()
    {
      hide Agree, AllStored;
    }

    // Turns the blocks of the used list into buckets, one after the other.
    method Rebuild(ghost pairs: map<nat, Pair>, ghost c: map<ByteString, ByteString>)
      requires buffer.Valid() && forall k :: slotOf(k) < |buckets.heads|
      requires Stores(buffer.mem[..], buffer.h, pairs) && AllStored(buffer.h, pairs) && Represent(pairs, c)
      requires Chains(buckets.heads, [], [], slotOf) && buckets.nexts == buckets.payloads == []
        && view == View([], map[], c)
      modifies this
      ensures Valid() && view.stored == pairs && view.contents == c
    {
      ghost var m, h, n := buffer.mem[..], buffer.h, |buckets.heads|;
      ghost var f: ByteString -> nat := slotOf;
      assert Represents(m, h);
      RebuiltStart(h.used, pairs);
      hide *;
      UsedEntry(m, h, 0);
      var curr := buffer.Load(8);
      ghost var i := 0;
      while curr != 0
        invariant i <= |h.used| && curr == At(h.used, i) && |buckets.heads| == n && view.contents == c
        invariant Rebuilt(h.used, i, buckets.payloads, view.keys, view.stored, pairs)
          && Chains(buckets.heads, buckets.nexts, view.keys, f)
        decreases |h.used| - i
      {
        UsedEntry(m, h, i);
        RebuildFacts(m, h, pairs, curr);
        curr := AddBucket(curr, i, m, h, pairs, c);
        i := i + 1;
      }
      UsedEntry(m, h, i);
      SameBlocks(m, h, pairs);
      RebuiltAll(h.used, i, buckets.payloads, view.keys, view.stored, pairs);
      Gather(m, h, Snapshot());
      ValidIs();
    }

    // One bucket for the used block curr, which is the i-th; returns the next block.
    method AddBucket(curr: nat, ghost i: nat, ghost m: seq<Byte>, ghost h: State, ghost pairs: map<nat, Pair>,
        ghost c: map<ByteString,
        ByteString>)
      returns (next: nat)
      requires m == buffer.mem[..] && i < |h.used| && curr == h.used[i] && curr in pairs
        && Reads(m, h.cells, curr, pairs[curr])
      requires curr + OVERHEAD <= |m| && Distinct(h.used) && Represent(pairs, c)
        && Rebuilt(h.used, i, buckets.payloads, view.keys, view.stored, pairs)
      requires Chains(buckets.heads, buckets.nexts, view.keys, slotOf) && slotOf(pairs[curr].key) < |buckets.heads|
      modifies this
      ensures next == Next(m, curr) && |buckets.heads| == old(|buckets.heads|) && view.contents == old(view.contents)
      ensures Rebuilt(h.used, i + 1, buckets.payloads, view.keys, view.stored, pairs)
        && Chains(buckets.heads, buckets.nexts, view.keys, slotOf)
    {
      ghost var p := pairs[curr];
      hide *;
      PairStrings(m, h.cells, curr, p);
      var k := ReadString(curr + OVERHEAD, p.key);
      SameSlot(slotOf, k, p.key);
      RebuiltStep(h.used, i, buckets.payloads, view.keys, view.stored, pairs, c, curr, p);
      ChainsGrow(buckets.heads, buckets.nexts, view.keys, slotOf, p.key);
      var s := slotOf(k);
      buckets := Buckets(buckets.heads[s := |buckets.payloads|], buckets.nexts + [buckets.heads[s]],
          buckets.payloads + [curr + OVERHEAD]);
      view := View(view.keys + [p.key], view.stored[curr := p], view.contents);
      next := buffer.LoadNext(curr);
    }

    // The C string at a.
    method ReadString(a: nat, ghost s: ByteString) returns (r: ByteString)
      requires StringAt(buffer.mem[..], a, s)
      ensures r == s
    {
      ghost var m := buffer.mem[..];
      r := [];
      StringByte(m, a, s, 0);
      while buffer.mem[a + |r|] != 0
        invariant |r| <= |s| && r == s[..|r|] && a + |r| < buffer.mem.Length
        decreases |s| - |r|
      {
        StringByte(m, a, s, |r|);
        r := r + [buffer.mem[a + |r|]];
        StringByte(m, a, s, |r|);
      }
      StringByte(m, a, s, |r|);
    }

    method BucketKey(i: nat) returns (k: ByteString)
      requires Searchable() && i < |buckets.payloads|
      ensures |buckets.payloads| == |view.keys| && k == view.keys[i]
    {
      hide *;
      Opened();
      BucketStrings(buffer.mem[..], buffer.h, Snapshot(), i);
      ghost var s := view.keys[i];
      k := ReadString(buckets.payloads[i], s);
    }

    method BucketValue(i: nat) returns (v: ByteString)
      requires Searchable() && i < |buckets.payloads|
      ensures |buckets.payloads| == |view.keys| && view.keys[i] in view.contents && v == view.contents[view.keys[i]]
    {
      hide *;
      Opened();
      BucketStrings(buffer.mem[..], buffer.h, Snapshot(), i);
      ghost var s, u := view.keys[i], view.contents[view.keys[i]];
      var k := ReadString(buckets.payloads[i], s);
      v := ReadString(buckets.payloads[i] + |k| + 1, u);
    }

    // The bucket with the given key, if there is one.
    method FindBucket(key: ByteString) returns (bucket: int)
      requires Searchable()
      ensures bucket >= -1 && Located(view.keys, key, bucket)
    {
      hide *;
      ghost var m, h, t := buffer.mem[..], buffer.h, Snapshot();
      Opened();
      WalkStart(m, h, t, key);
      bucket := buckets.heads[slotOf(key)];
      ghost var n: nat := |view.keys|;
      while bucket >= 0
        invariant -1 <= bucket && Walked(t, key, n, bucket)
        decreases n
      {
        WalkNext(m, h, t, key, n, bucket);
        var k := BucketKey(bucket);
        if k == key {
          WalkFound(t, key, bucket);
          return;
        }
        n := bucket;
        bucket := buckets.nexts[bucket];
      }
      WalkEnd(t, key, n);
    }

    method Lookup(key: ByteString) returns (value: ByteString)
      requires Searchable()
      ensures Answers(view.contents, key, value)
    {
      hide *;
      ghost var m, h, t := buffer.mem[..], buffer.h, Snapshot();
      Opened();
      var bucket := FindBucket(key);
      LocatedContents(m, h, t, key, bucket);
      value := [];
      if bucket >= 0 {
        value := BucketValue(bucket);
        Same(view.contents, view.keys[bucket], key, value);
      } else {
        NoAnswer(view.contents, key);
      }
    }

    // The value last put for the key, or the empty string.
    method Get(key: ByteString) returns (value: ByteString)
      requires Searchable()
      ensures value == if key in view.contents then view.contents[key] else []
    {
      hide Searchable;
      value := Lookup(key);
    }

    // A block for n bytes. The buckets still agree with memory; the new block is the only one without a pair.
    method Allocate(n: nat) returns (pointer: nat)
      requires Valid()
      modifies buffer, buffer.mem
      ensures old(forall o <- buffer.h.free :: o in buffer.h.cells)
      ensures pointer == 0 <==> old(forall o <- buffer.h.free :: buffer.h.cells[o] < n)
      ensures pointer == 0 ==> Valid() && buffer.mem[..] == old(buffer.mem[..]) && buffer.h == old(buffer.h)
      ensures pointer != 0 ==> old(FirstFit(buffer.h.cells, buffer.h.free, n) < |buffer.h.free|)
      ensures pointer != 0 ==> buffer.h == Heap.Alloc(old(buffer.h), n) && pointer == buffer.h.used[0] + OVERHEAD
      ensures pointer != 0 ==> Allocated(buffer.mem[..], buffer.h, Snapshot(), pointer - OVERHEAD, n)
      ensures pointer != 0 ==> UsedPart(buffer.mem[..], buffer.h)
      ensures pointer != 0 ==> (buffer.Valid() <==> old(CleanSplit(buffer.mem[..], buffer.h, n)))
      ensures pointer != 0 ==> PayloadsKept(old(buffer.mem[..]), buffer.mem[..], old(buffer.h))
    {
      hide *;
      ghost var m, h, t := buffer.mem[..], buffer.h, Snapshot();
      OpenedAll();
      Opened();
      SomeFits(m, h, n);
      pointer := buffer.Alloc(n);
      if pointer != 0 { AllocatedIs(m, buffer.mem[..], h, t, n); } else { ValidAgain(m, h, t); }
    }

    // The bytes of a pair go to the new block.
    method WritePair(pointer: nat, p: Pair)
      requires UsedPart(buffer.mem[..], buffer.h)
        && Allocated(buffer.mem[..], buffer.h, Snapshot(), pointer - OVERHEAD, |Encode(p)|)
      requires NulFree(p.key) && NulFree(p.value)
      modifies buffer.mem
      ensures UsedPart(buffer.mem[..], buffer.h) && (buffer.Valid() <==> old(buffer.Valid()))
      ensures pointer >= OVERHEAD && pointer - OVERHEAD in buffer.h.used
      ensures Stores(buffer.mem[..], buffer.h, view.stored[pointer - OVERHEAD := p])
      ensures forall o <- buffer.h.used :: o != pointer - OVERHEAD ==> PayloadKept(old(buffer.mem[..]), buffer.mem[..], buffer.h.cells, o)
    {
      hide *;
      ghost var m, h, t := buffer.mem[..], buffer.h, Snapshot();
      SnapshotIs();
      AllocatedPlace(m, h, t, pointer - OVERHEAD, |Encode(p)|);
      ghost var b: nat := pointer - OVERHEAD;
      AllocatedFacts(m, h, t, b, |Encode(p)|);
      ghost var st: map<nat, Pair> := view.stored;
      buffer.Write(pointer, Encode(p));
      StoresWrite(m, buffer.mem[..], h, b, p, st);
    }

    // A new bucket is filled and put in front of its chain.
    method StoreNew(pointer: nat, p: Pair, ghost m: seq<Byte>)
      requires pointer >= OVERHEAD && Allocated(m, buffer.h, Snapshot(), pointer - OVERHEAD, |Encode(p)|)
      requires Stores(buffer.mem[..], buffer.h, view.stored[pointer - OVERHEAD := p]) && Located(view.keys, p.key, -1)
      modifies this
      ensures Searchable() && (Valid() <==> buffer.Valid())
      ensures view.contents == old(view.contents)[p.key := p.value]
        && view.stored == old(view.stored)[pointer - OVERHEAD := p]
    {
      hide Agree, Stores, Allocated, AllStored, UsedPlus, Located, Represents, Encode, Prepend, WithPair;
      ghost var m', h, b := buffer.mem[..], buffer.h, pointer - OVERHEAD;
      ghost var t, st := Snapshot(), view.stored;
      AllocatedParts(m, h, t, b, |Encode(p)|);
      AgreeNew(m, h, m', h, t, b, p);
      AllStoredNew(h, st, b, p);
      WithPairParts(view, b, p);
      buckets := Prepend(buckets, slotOf(p.key), pointer);
      view := WithPair(view, b, p);
    }

    // The bucket gets the new payload; the old one is not released yet.
    method StoreOther(n: nat, pointer: nat, p: Pair, ghost m: seq<Byte>) returns (oldPointer: nat)
      requires UsedPart(buffer.mem[..], buffer.h) && pointer >= OVERHEAD
      requires Allocated(m, buffer.h, Snapshot(), pointer - OVERHEAD, |Encode(p)|)
      requires Stores(buffer.mem[..], buffer.h, view.stored[pointer - OVERHEAD := p]) && Located(view.keys, p.key, n)
      modifies this
      ensures Searchable() && view.contents == old(view.contents)[p.key := p.value] && Releasable(oldPointer)
      ensures var a := oldPointer - OVERHEAD; a in old(view.stored) && old(view.stored)[a].key == p.key
    {
      hide Agree, Stores, Allocated, AllStored, UsedPlus, Located, UsedPart, Encode, Replace, WithOther;
      ghost var m1, h, t, b := buffer.mem[..], buffer.h, Snapshot(), pointer - OVERHEAD;
      AllocatedParts(m, h, t, b, |Encode(p)|);
      ghost var a := OldPayload(m, m1, h, t, n, b, p);
      WithOtherParts(view, a, b, p);
      StoresLess(m1, h, view.stored[b := p], a);
      AgreeReplaced(m, h, m1, h, t, n, a, b, p);
      UsedOther(h, t.v.stored, a, b, p);
      oldPointer := buckets.payloads[n];
      buckets := Replace(buckets, n, pointer);
      view := WithOther(view, a, b, p);
    }

    // A used block that no bucket owns, and the only one.
    ghost predicate Releasable(pointer: nat)
      reads this, buffer
    {
      && pointer >= OVERHEAD && pointer - OVERHEAD in buffer.h.used && pointer - OVERHEAD in buffer.h.cells
      && pointer - OVERHEAD !in view.stored && UsedPlus(buffer.h, view.stored, pointer - OVERHEAD)
    }

    // The deleter: the block goes back to the allocator.
    method Release(pointer: nat)
      requires buffer.Valid() && Searchable() && Releasable(pointer)
      modifies buffer, buffer.mem
      ensures Valid()
      ensures old(forall o <- buffer.h.free :: o in buffer.h.cells) && old(pointer - OVERHEAD in buffer.h.cells)
      ensures buffer.h == Heap.Free(old(buffer.h), pointer - OVERHEAD)
      ensures PayloadsKept(old(buffer.mem[..]), buffer.mem[..], buffer.h)
      ensures PayloadKept(old(buffer.mem[..]), buffer.mem[..], old(buffer.h.cells), pointer - OVERHEAD)
    {
      hide Agree, Stores, AllStored, UsedPlus, Represents, PayloadsKept, PayloadKept, Heap.Free;
      ghost var m, h, t, a := buffer.mem[..], buffer.h, Snapshot(), pointer - OVERHEAD;
      RepresentsSize(m, h);
      buffer.Free(pointer);
      GivenBack(m, h, buffer.mem[..], t, a);
    }

    // Everything put does up to the release of a replaced block. It allocates first and changes nothing if that
    // fails; otherwise the map gets the value for the key, and the payloads that readers may still be looking at,
    // even the replaced one, keep their bytes. Afterwards the allocator's bytes are those of a heap just when the
    // split was clean; lookups are right in any case.
    method Place(key: ByteString, value: ByteString) returns (ok: bool, oldPointer: nat)
      requires Valid() && NulFree(key) && NulFree(value)
      modifies this, buffer, buffer.mem
      ensures Searchable() && view.contents == if ok then old(view.contents)[key := value] else old(view.contents)
      ensures old(forall o <- buffer.h.free :: o in buffer.h.cells)
      ensures !ok <==> old(forall o <- buffer.h.free :: buffer.h.cells[o] < |key| + 1 + |value| + 1)
      ensures !ok ==> Valid() && buffer.mem[..] == old(buffer.mem[..]) && buffer.h == old(buffer.h)
      ensures !ok ==> Snapshot() == old(Snapshot())
      ensures ok ==> (Readable(buffer.mem[..]) <==> old(CleanSplit(buffer.mem[..], buffer.h, |key| + 1 + |value| + 1)))
      ensures buffer.Valid() <==> Readable(buffer.mem[..])
      ensures ok ==> |Encode(Pair(key, value))| == |key| + 1 + |value| + 1
      ensures ok ==> old(FirstFit(buffer.h.cells, buffer.h.free, |key| + 1 + |value| + 1) < |buffer.h.free|)
      ensures ok ==> buffer.h == Heap.Alloc(old(buffer.h), |key| + 1 + |value| + 1)
      ensures ok ==> UsedPart(buffer.mem[..], buffer.h)
      ensures ok ==> PayloadsKept(old(buffer.mem[..]), buffer.mem[..], old(buffer.h))
      ensures oldPointer != 0 <==> ok && key in old(view.contents)
      ensures ok && oldPointer == 0 ==> (Valid() <==> buffer.Valid())
      ensures ok && oldPointer == 0 ==> Places(old(buffer.h), buffer.h, old(view), view, Pair(key, value))
      ensures oldPointer != 0 ==> Releasable(oldPointer) && oldPointer - OVERHEAD in old(view.stored)
      ensures oldPointer != 0 ==> old(view.stored)[oldPointer - OVERHEAD].key == key
    {
      hide *;
      var p := Pair(key, value);
      ghost var m0, h0, t0 := buffer.mem[..], buffer.h, Snapshot();
      OpenedAll();
      SnapshotIs();
      RepresentsSize(m0, h0);
      RepresentsUsed(m0, h0);
      ReadableWhen(m0, h0);
      buffer.ValidWhen();
      oldPointer := 0;
      var pointer := Allocate(|key| + 1 + |value| + 1);
      if pointer == 0 {
        OpenedAll();
        buffer.ValidWhen();
        return false, oldPointer;
      }
      EncodeSize(p);
      ghost var m, h := buffer.mem[..], buffer.h;
      StillSearchable(pointer - OVERHEAD, |Encode(p)|);
      var bucket := FindBucket(key);
      AllocatedParts(m, h, t0, pointer - OVERHEAD, |Encode(p)|);
      LocatedContents(m, h, t0, key, bucket);
      WritePair(pointer, p);
      ghost var m1 := buffer.mem[..];
      WrittenKept(m0, m, m1, h0, h, |Encode(p)|);
      buffer.ValidWhen();
      ReadableWhen(m1, h);
      ok := true;
      if bucket < 0 {
        StoreNew(pointer, p, m);
        PlacesNew(h0, h, t0.v, view, p);
      } else {
        oldPointer := StoreOther(bucket, pointer, p, m);
        NotNull(oldPointer);
      }
    }

    lemma NotNull(pointer: nat)
      requires Releasable(pointer)
      ensures pointer != 0
    {
      hide UsedPlus;
    }

    // Put for a key that is there already releases the old block, which takes a well-formed free list; for a new key
    // the allocator survives just when its split was clean. Lookups are right in any case.
    method Put(key: ByteString, value: ByteString) returns (ok: bool)
      requires Valid() && NulFree(key) && NulFree(value)
      requires key in view.contents ==> CleanSplit(buffer.mem[..], buffer.h, |key| + 1 + |value| + 1)
      modifies this, buffer, buffer.mem
      ensures Searchable() && view.contents == if ok then old(view.contents)[key := value] else old(view.contents)
      ensures old(forall o <- buffer.h.free :: o in buffer.h.cells)
      ensures !ok <==> old(forall o <- buffer.h.free :: buffer.h.cells[o] < |key| + 1 + |value| + 1)
      ensures !ok ==> Valid() && buffer.mem[..] == old(buffer.mem[..]) && buffer.h == old(buffer.h)
      ensures !ok ==> Snapshot() == old(Snapshot())
      ensures ok ==> (Valid() <==> old(CleanSplit(buffer.mem[..], buffer.h, |key| + 1 + |value| + 1)))
      ensures Readable(buffer.mem[..]) <==> Valid()
      ensures ok ==> Places(old(buffer.h), buffer.h, old(view), view, Pair(key, value))
      ensures ok ==> PayloadsKept(old(buffer.mem[..]), buffer.mem[..], old(buffer.h))
    {
      hide *;
      ghost var m0, h0, t0 := buffer.mem[..], buffer.h, Snapshot();
      ghost var p := Pair(key, value);
      SnapshotIs();
      OpenedAll();
      RepresentsSize(m0, h0);
      var oldPointer;
      ok, oldPointer := Place(key, value);
      if !ok { OpenedAll(); }
      if oldPointer != 0 {
        ghost var m1, h, a := buffer.mem[..], buffer.h, oldPointer - OVERHEAD;
        Released(oldPointer);
        Release(oldPointer);
        PlacesOld(h0, h, buffer.h, t0.v, view, p, a);
        FreedKept(m0, m1, buffer.mem[..], h0, h, buffer.h, a, |Encode(p)|);
        OpenedAll();
        RepresentsUsed(buffer.mem[..], buffer.h);
        ReadableWhen(buffer.mem[..], buffer.h);
      }
    }

    lemma Released(pointer: nat)
      requires Releasable(pointer)
      ensures pointer >= OVERHEAD && pointer - OVERHEAD in buffer.h.used && pointer - OVERHEAD in buffer.h.cells
    {
      hide UsedPlus;
    }

    lemma StillSearchable(b: int, n: nat)
      requires Allocated(buffer.mem[..], buffer.h, Snapshot(), b, n)
      ensures Searchable()
    {
      hide Agree;
    }
  }

  // What put does to the heap and to the stored pairs: a block for the pair is taken first-fit, and a block
  // that held the key before is released afterwards.
  ghost predicate Places(h: State, h': State, v: View, v': View, p: Pair) {
    && (forall o <- h.free :: o in h.cells) && FirstFit(h.cells, h.free, |Encode(p)|) < |h.free|
    && var g := Heap.Alloc(h, |Encode(p)|);
      && (forall o <- g.free :: o in g.cells)
      && if p.key !in v.contents then h' == g && v'.stored == v.stored[g.used[0] := p]
         else exists a :: a in v.stored && v.stored[a].key == p.key && a in g.cells && h' == Heap.Free(g, a)
  }

  lemma PlacesNew(h: State, h': State, v: View, v': View, p: Pair)
    requires (forall o <- h.free :: o in h.cells) && FirstFit(h.cells, h.free, |Encode(p)|) < |h.free|
      && h' == Heap.Alloc(h, |Encode(p)|)
    requires forall o <- h'.free :: o in h'.cells
    requires p.key !in v.contents && h'.used != [] && v'.stored == v.stored[h'.used[0] := p]
    ensures Places(h, h', v, v', p)
  {
    hide Heap.Alloc, FirstFit, Encode;
  }

  lemma PlacesOld(h: State, g: State, h': State, v: View, v': View, p: Pair, a: nat)
    requires (forall o <- h.free :: o in h.cells) && FirstFit(h.cells, h.free, |Encode(p)|) < |h.free|
      && g == Heap.Alloc(h, |Encode(p)|)
    requires p.key in v.contents && a in v.stored && v.stored[a].key == p.key && a in g.cells
    requires (forall o <- g.free :: o in g.cells) && h' == Heap.Free(g, a)
    ensures Places(h, h', v, v', p)
  {
    hide Heap.Alloc, Heap.Free, FirstFit, Encode;
  }

  lemma OkFree(g: State, hi: nat)
    requires Ok(g, hi)
    ensures (forall o <- g.free :: o in g.cells) && forall o <- g.used :: o in g.cells
  {
  }

  lemma KeptAt(m: seq<Byte>, m': seq<Byte>, h: State, o: nat)
    requires PayloadsKept(m, m', h) && o in h.used
    ensures PayloadKept(m, m', h.cells, o)
  {
  }

  lemma KeptTwice(m: seq<Byte>, m1: seq<Byte>, m2: seq<Byte>, cells: map<nat, nat>, cells': map<nat, nat>, o: nat)
    requires PayloadKept(m, m1, cells, o) && o in cells && o in cells' && cells'[o] == cells[o]
      && PayloadKept(m1, m2, cells', o)
    ensures PayloadKept(m, m2, cells, o)
  {
  }

  // Blocks in use before put keep their bytes while the new pair is written ...
  lemma WrittenKept(m0: seq<Byte>, m: seq<Byte>, m1: seq<Byte>, h: State, g: State, n: nat)
    requires Represents(m0, h) && (forall o <- h.free :: o in h.cells) && FirstFit(h.cells, h.free, n) < |h.free|
      && g == Heap.Alloc(h, n)
    requires PayloadsKept(m0, m, h) && g.used != []
    requires forall o <- g.used :: o != g.used[0] ==> PayloadKept(m, m1, g.cells, o)
    requires |m1| == |m| == |m0|
    ensures PayloadsKept(m0, m1, h) && forall o <- g.free :: o in g.cells
  {
    hide Represents, Heap.Alloc, FirstFit, Ok, PayloadKept;
    RepresentsSize(m0, h);
    AllocFacts(h, n, |m0|);
    OkFree(g, |m0|);
    forall o | o in h.used
      ensures PayloadKept(m0, m1, h.cells, o)
    {
      AllocMember(h, n, |m0|, o);
      KeptAt(m0, m, h, o);
      KeptTwice(m0, m, m1, h.cells, g.cells, o);
    }
  }

  // ... and while the replaced block is released.
  lemma FreedKept(m0: seq<Byte>, m1: seq<Byte>, m2: seq<Byte>, h: State, g: State, h': State, a: nat, n: nat)
    requires Ok(h, |m0|) && (forall o <- h.free :: o in h.cells) && FirstFit(h.cells, h.free, n) < |h.free|
      && g == Heap.Alloc(h, n)
    requires PayloadsKept(m0, m1, h) && (forall o <- g.free :: o in g.cells) && a in g.cells && a in g.used
      && h' == Heap.Free(g, a)
    requires PayloadsKept(m1, m2, h') && PayloadKept(m1, m2, g.cells, a) && |m2| == |m0|
    ensures PayloadsKept(m0, m2, h)
  {
    hide Ok, Heap.Alloc, Heap.Free, FirstFit, PayloadKept;
    AllocFacts(h, n, |m0|);
    FreeOk(g, a, |m0|);
    OkFree(h', |m0|);
    forall o | o in h.used
      ensures PayloadKept(m0, m2, h.cells, o)
    {
      AllocMember(h, n, |m0|, o);
      KeptAt(m0, m1, h, o);
      if o != a {
        KeptAt(m1, m2, h', o);
        KeptTwice(m0, m1, m2, h.cells, h'.cells, o);
      } else {
        KeptTwice(m0, m1, m2, h.cells, g.cells, o);
      }
    }
  }

  // Opening the buffer of a table that no operation is working on, with any number of slots and any hash
  // function, gives a table with the same contents.
  method Reopen(table: HashTable, slots: nat, slotOf: ByteString -> nat) returns (again: HashTable)
    requires table.Valid() && forall k :: slotOf(k) < slots
    ensures fresh(again) && again.Valid() && again.view.contents == table.view.contents && again.buffer == table.buffer
    ensures table.Valid()
  {
    ghost var m, h, t := table.buffer.mem[..], table.buffer.h, table.Snapshot();
    Parts(m, h, t);
    hide Agree, AllStored, Stores, Represent, Chains, Owns;
    again := new HashTable(table.buffer, slots, slotOf, table.view.stored, table.view.contents);
  }

  lemma EncodeSize(p: Pair)
    ensures |Encode(p)| == |p.key| + 1 + |p.value| + 1
  {
  }

  lemma AllocatedFacts(m: seq<Byte>, h: State, t: Snap, b: nat, n: nat)
    requires Allocated(m, h, t, b, n) && UsedPart(m, h)
    ensures Stores(m, h, t.v.stored) && b in h.used && b !in t.v.stored && b in h.cells && n <= h.cells[b]
      && End(h.cells, b) <= |m|
  {
    Parts(m, h, t);
    hide Agree, Stores;
    assert Tiled(h.cells, |m|);
  }

  lemma AllocatedPlace(m: seq<Byte>, h: State, t: Snap, b: int, n: nat)
    requires Allocated(m, h, t, b, n)
    ensures b >= 0
  {
    hide Agree, UsedPlus;
  }

  lemma AllocatedParts(m: seq<Byte>, h: State, t: Snap, b: int, n: nat)
    requires Allocated(m, h, t, b, n)
    ensures Agree(m, h, t) && b >= 0 && b !in t.v.stored && UsedPlus(h, t.v.stored, b) && |t.k.payloads| == |t.v.keys|
  {
    Parts(m, h, t);
    hide Agree, UsedPlus;
  }

  // The block that bucket n has owned so far.
  lemma OldPayload(m: seq<Byte>, m1: seq<Byte>, h: State, t: Snap, n: nat, b: nat, p: Pair) returns (a: nat)
    requires Agree(m, h, t) && UsedPart(m1, h) && Located(t.v.keys, p.key, n) && b !in t.v.stored
      && UsedPlus(h, t.v.stored, b)
    ensures n < |t.k.payloads| == |t.v.keys| && t.k.payloads[n] == a + OVERHEAD && a in h.used && a in h.cells
    ensures a in t.v.stored && t.v.stored[a].key == p.key
    ensures forall o <- h.free :: o in h.cells
  {
    Parts(m, h, t);
    hide Agree, Stores, Represent, Chains, Ok;
    OkFree(h, |m1|);
    a := OwnedBy(t.k.payloads, t.v.keys, t.v.stored, n, p.key);
    hide Owns, Located;
    assert a in h.used;
  }

  lemma OwnedBy(payloads: seq<nat>, keys: seq<ByteString>, stored: map<nat, Pair>, n: nat,
      key: ByteString) returns (a: nat)
    requires Owns(payloads, keys, stored) && Located(keys, key, n)
    ensures n < |payloads| == |keys| && payloads[n] == a + OVERHEAD && a in stored && stored[a].key == key
  {
    assert OwnsAt(payloads, keys, stored, n);
    a := payloads[n] - OVERHEAD;
  }

  // After the allocation of block b.
  ghost predicate Allocated(m: seq<Byte>, h: State, t: Snap, b: int, n: nat) {
    Agree(m, h, t) && b >= 0 && b !in t.v.stored && b in h.cells && n <= h.cells[b] && UsedPlus(h, t.v.stored, b)
  }

  lemma AllocatedIs(m: seq<Byte>, m': seq<Byte>, h: State, t: Snap, n: nat)
    requires Represents(m, h) && Agree(m, h, t) && AllStored(h, t.v.stored) && PayloadsKept(m, m', h)
    requires (forall o <- h.free :: o in h.cells) && FirstFit(h.cells, h.free, n) < |h.free|
    ensures Alloc(h, n).used != [] && Allocated(m', Alloc(h, n), t, Alloc(h, n).used[0], n)
  {
    Parts(m, h, t);
    SameBlocks(m, h, t.v.stored);
    hide *;
    StoresAlloc(m, m', h, n, t.v.stored);
    Gather(m', Alloc(h, n), t);
    AllocatedHas(m', Alloc(h, n), t, h.used, n);
  }

  lemma SomeFits(m: seq<Byte>, h: State, n: nat)
    requires Represents(m, h)
    ensures forall o <- h.free :: o in h.cells
    ensures FirstFit(h.cells, h.free, n) == |h.free| <==> forall o <- h.free :: h.cells[o] < n
  {
    RepresentsSize(m, h);
    hide Represents;
    var k := FirstFit(h.cells, h.free, n);
    if k < |h.free| { assert h.free[k] in h.free; }
  }

  lemma AllocatedHas(m: seq<Byte>, g: State, t: Snap, used: seq<nat>, n: nat)
    requires Agree(m, g, t) && g.used != [] && g.used[0] !in used && g.used[0] in g.cells && n <= g.cells[g.used[0]]
    requires (forall o :: o in g.used <==> o == g.used[0] || o in used) && forall b :: b in t.v.stored <==> b in used
    ensures Allocated(m, g, t, g.used[0], n)
  {
    hide Agree;
  }

  ghost predicate Answers(contents: map<ByteString, ByteString>, key: ByteString, value: ByteString) {
    value == if key in contents then contents[key] else []
  }

  lemma NoAnswer(contents: map<ByteString, ByteString>, key: ByteString)
    requires key !in contents
    ensures Answers(contents, key, [])
  {
  }

  lemma Same(contents: map<ByteString, ByteString>, k: ByteString, key: ByteString, value: ByteString)
    requires k == key && k in contents && value == contents[k]
    ensures Answers(contents, key, value)
  {
  }

  lemma LocatedContents(m: seq<Byte>, h: State, t: Snap, key: ByteString, bucket: int)
    requires Agree(m, h, t) && Located(t.v.keys, key, bucket)
    ensures key in t.v.contents <==> bucket >= 0
    ensures |t.k.payloads| == |t.v.keys| && (bucket >= 0 ==> bucket < |t.v.keys| && t.v.keys[bucket] == key)
  {
    Sizes(m, h, t, key);
    hide Agree;
  }
}
