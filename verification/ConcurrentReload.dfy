// The states in which runs start: a quiescent table, as the constructor builds it from the pairs that
// the used list of the buffer holds.
module ConcurrentReload {
  import opened Options
  import opened ConcurrentTable
  import opened ConcurrentOwnership
  import opened ConcurrentChains
  import opened ConcurrentInvariant
  import opened ConcurrentSteps

  // Nobody is active, and every block in use is the payload of one published bucket. The history is
  // that of the operations which earlier sessions have completed.
  ghost predicate Init(s: State) {
    && Still(s) && s.lock == None && |s.links| == |s.payloads| == s.npub
    && Chained(s.links, s.heads, s.npub, s.slot) && Keyed(s) && Represents(s)
    && (forall a :: a in s.mem <==> Some(a) in s.payloads)
    && (forall a :: a in s.rc <==> a in s.mem) && (forall a <- s.rc :: s.rc[a] == 1)
    && Legal(s.hist) && forall t :: Track(s.hist, t) == Quiet
  }

  // A table without buckets is one of them.
  lemma EmptyInit(s: State)
    requires s.heads == map[] && s.links == [] && s.payloads == [] && s.npub == 0
    requires s.mem == map[] && s.rc == map[] && s.lock == None && s.hist == [] && Still(s)
    ensures Init(s)
  {
  }

  lemma SingleOwner(s: State, a: Addr)
    requires Still(s) && Keyed(s) && Distinct(s.links, s.npub) && |s.links| == |s.payloads| == s.npub
      && Some(a) in s.payloads
    ensures Count(s.payloads, s.threads, a) == 1
  {
    var i: nat :| i < |s.payloads| && s.payloads[i] == Some(a);
    assert Holds(s.mem, a, s.links[i].key);
    assert BucketRefs(s.payloads, a) == {i};
    assert ThreadRefs(s.threads, a) == {};
  }

  lemma InitOwn(s: State)
    requires Init(s)
    ensures Own(s)
  {
    hide Chained, Represents, Legal, Track, Keyed, Count;
    forall a | a in s.rc
      ensures s.rc[a] == Count(s.payloads, s.threads, a)
    {
      ChainedDistinct(s);
      SingleOwner(s, a);
    }
  }

  lemma ChainedDistinct(s: State)
    requires Chained(s.links, s.heads, s.npub, s.slot)
    ensures Distinct(s.links, s.npub)
  {
  }

  lemma InitInv(s: State)
    requires Init(s)
    ensures Inv(s)
  {
    InitOwn(s);
    hide Own, Chained, Represents, Legal, Track, Keyed, Abs;
  }

  // --- what the constructor does for one pair of the used list ------------------------------------------

  function Loaded(s: State, a: Addr, k: Key, v: Value): State {
    var head := if s.slot(k) in s.heads then Some(s.heads[s.slot(k)]) else None;
    var op := Put(k, v);
    s.(links := s.links + [Link(k, head)], payloads := s.payloads + [Some(a)],
       heads := s.heads[s.slot(k) := |s.links|], npub := s.npub + 1,
       mem := s.mem[a := Pair(k, v)], rc := s.rc[a := 1],
       hist := s.hist + [Invoke(0, op)] + [Linearize(0, op, Done(true))] + [Respond(0, op, Done(true))])
  }

  lemma StoryOfPut(h: seq<Event>, k: Key, v: Value)
    requires Legal(h) && forall t :: Track(h, t) == Quiet
    ensures var op := Put(k, v);
      var h' := h + [Invoke(0, op)] + [Linearize(0, op, Done(true))] + [Respond(0, op, Done(true))];
      Legal(h') && (forall t :: Track(h', t) == Quiet) && Abs(h') == Abs(h)[k := v]
  {
    hide Legal, Track, Abs;
    var op := Put(k, v);
    var e, f, g := Invoke(0, op), Linearize(0, op, Done(true)), Respond(0, op, Done(true));
    forall t
      ensures Track(h + [e] + [f] + [g], t) == Quiet
    {
      assert Track(h, t) == Quiet && Track(h, 0) == Quiet;
      TrackLog(h, e, t);
      TrackLog(h + [e], f, t);
      TrackLog(h + [e] + [f], g, t);
      TrackSelf(h, e);
      TrackSelf(h + [e], f);
      TrackSelf(h + [e] + [f], g);
    }
    TrackLog(h, e, 0);
    TrackLog(h + [e], f, 0);
    TrackLog(h + [e] + [f], g, 0);
  }

  lemma LoadedChains(s: State, a: Addr, k: Key, v: Value)
    requires Chained(s.links, s.heads, s.npub, s.slot) && s.npub == |s.links| && !Published(s.links, s.npub, k)
    ensures var s' := Loaded(s, a, k, v); Chained(s'.links, s'.heads, s'.npub, s'.slot)
  {
    hide Chained;
    var links := Loaded(s, a, k, v).links;
    SameChained(s.links, links, s.heads, s.npub, s.slot);
    SamePublished(s.links, links, s.npub, k);
    PublishChained(links, s.heads, s.npub, s.slot);
  }

  lemma LoadedPublished(s: State, a: Addr, k: Key, v: Value, key: Key)
    requires s.npub == |s.links|
    ensures var s' := Loaded(s, a, k, v);
      Published(s'.links, s'.npub, key) <==> Published(s.links, s.npub, key) || key == k
  {
    hide Published;
    var links := Loaded(s, a, k, v).links;
    SamePublished(s.links, links, s.npub, key);
    PublishedMore(links, s.npub, key);
  }

  lemma LoadedPairs(s: State, a: Addr, k: Key, v: Value)
    requires Keyed(s) && Represents(s) && |s.links| == |s.payloads| == s.npub && a !in s.mem
      && !Published(s.links, s.npub, k)
    requires Abs(Loaded(s, a, k, v).hist) == Abs(s.hist)[k := v]
    ensures Keyed(Loaded(s, a, k, v)) && Represents(Loaded(s, a, k, v))
  {
    hide Abs;
    var s' := Loaded(s, a, k, v);
    forall key
      ensures key in Abs(s'.hist) <==> Published(s'.links, s'.npub, key)
    {
      LoadedPublished(s, a, k, v, key);
    }
    forall i | 0 <= i < s.npub
      ensures s'.links[i] == s.links[i] && s'.payloads[i] == s.payloads[i] && s.links[i].key != k
        && s'.payloads[i] != Some(a)
    {
    }
  }

  lemma LoadedMemory(s: State, a: Addr, k: Key, v: Value)
    requires a !in s.mem && (forall b :: b in s.mem <==> Some(b) in s.payloads)
    requires (forall b :: b in s.rc <==> b in s.mem) && forall b <- s.rc :: s.rc[b] == 1
    ensures var s' := Loaded(s, a, k, v);
      && (forall b :: b in s'.mem <==> Some(b) in s'.payloads)
      && (forall b :: b in s'.rc <==> b in s'.mem) && forall b <- s'.rc :: s'.rc[b] == 1
  {
    var s' := Loaded(s, a, k, v);
    forall b
      ensures b in s'.mem <==> Some(b) in s'.payloads
    {
      assert b in s.mem <==> Some(b) in s.payloads;
    }
  }

  lemma InitParts(s: State)
    requires Init(s)
    ensures Still(s) && s.lock == None && |s.links| == |s.payloads| == s.npub
    ensures Chained(s.links, s.heads, s.npub, s.slot) && Keyed(s) && Represents(s)
    ensures (forall a :: a in s.mem <==> Some(a) in s.payloads)
    ensures (forall a :: a in s.rc <==> a in s.mem) && forall a <- s.rc :: s.rc[a] == 1
    ensures Legal(s.hist) && forall t :: Track(s.hist, t) == Quiet
    ensures forall k :: k in Abs(s.hist) <==> Published(s.links, s.npub, k)
  {
  }

  // Adding the bucket of a pair whose key is new leads from one such state to another, and adds that
  // pair to the map: whatever pairs the used list holds, the constructor ends in a state from which
  // the runs may start.
  lemma LoadKeeps(s: State, a: Addr, k: Key, v: Value)
    requires Init(s) && a !in s.mem && k !in Abs(s.hist)
    ensures Init(Loaded(s, a, k, v)) && Abs(Loaded(s, a, k, v).hist) == Abs(s.hist)[k := v]
  {
    hide Abs, Legal, Track, Chained, Keyed, Represents, Published;
    InitParts(s);
    StoryOfPut(s.hist, k, v);
    LoadedChains(s, a, k, v);
    LoadedPairs(s, a, k, v);
    LoadedMemory(s, a, k, v);
  }
}
