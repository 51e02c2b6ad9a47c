// The invariant of the concurrent table: what each thread may rely on where it stands, and how the
// shared state represents the linearized history.
module ConcurrentInvariant {
  import opened Options
  import opened ConcurrentTable
  import opened ConcurrentOwnership
  import opened ConcurrentChains

  // Steps of put between taking and releasing the write lock.
  predicate Critical(pc: Pc) {
    pc.PutAlloc? || pc.PutHead? || pc.PutLoad? || pc.PutCompare? || pc.PutNew? || pc.PutWrite? || pc.PutStore?
        || pc.PutDrop?
    || pc.PutLink? || pc.PutPublish? || pc.PutUnlock?
  }

  // The put has created a bucket that is not published yet.
  predicate Making(pc: Pc) {
    (pc.PutWrite? && pc.isNew) || (pc.PutStore? && pc.isNew) || pc.PutLink? || pc.PutPublish?
  }

  // p holds a pair with key k.
  predicate Holds(mem: map<Addr, Content>, p: Addr, k: Key) { p in mem && mem[p].Pair? && mem[p].key == k }

  // Bucket b lies on the chain on which key k is to be found, and the rest of the chain has k iff hit.
  ghost predicate OnChain(s: State, b: nat, k: Key, hit: bool) {
    b < s.npub <= |s.links| && s.slot(s.links[b].key) == s.slot(k) && (hit <==> Has(s.links, b, k))
  }

  // The bucket a put is about to fill: its own, still private, or a published one with the same key.
  ghost predicate Target(s: State, k: Key, b: nat, isNew: bool) {
    && b < |s.links| == |s.payloads| && s.links[b].key == k
    && if isNew then b == s.npub && s.payloads[b].None? && !Published(s.links, s.npub, k) else b < s.npub
  }

  ghost predicate Private(s: State, k: Key, v: Value, b: nat) {
    && b < |s.links| == |s.payloads| && s.links[b].key == k && b == s.npub && !Published(s.links, s.npub, k)
    && s.payloads[b].Some? && s.payloads[b].value in s.mem && s.mem[s.payloads[b].value] == Pair(k, v)
  }

  // What a thread at pc relies on.
  ghost predicate Local(s: State, pc: Pc) {
    match pc
    case GetLoad(k, b, hit) => OnChain(s, b, k, hit)
    case GetCompare(k, b, p, hit) => OnChain(s, b, k, hit) && Holds(s.mem, p, s.links[b].key)
    case GetReload(k, b) => b < s.npub <= |s.links| && s.links[b].key == k
    case GetRead(k, _, p) => Holds(s.mem, p, k)
    case PutLoad(k, _, _, b) => OnChain(s, b, k, Published(s.links, s.npub, k))
    case PutCompare(k, _, _, b, p) => OnChain(s, b, k, Published(s.links, s.npub, k)) && Holds(s.mem, p, s.links[b].key)
    case PutNew(k, _, _) => !Published(s.links, s.npub, k)
    case PutWrite(k, _, _, b, isNew) => Target(s, k, b, isNew)
    case PutStore(k, v, a, b, isNew) => Target(s, k, b, isNew) && a in s.mem && s.mem[a] == Pair(k, v)
    case PutDrop(k, _, p) => Holds(s.mem, p, k)
    case PutLink(k, v, b) => Private(s, k, v, b)
    case PutPublish(k, v, b) =>
      Private(s, k, v, b) && s.links[b].next == if s.slot(k) in s.heads then Some(s.heads[s.slot(k)]) else None
    case _ => true
  }

  // The status in the history that goes with pc.
  ghost predicate Recorded(s: State, t: Tid, pc: Pc) {
    var st := Track(s.hist, t);
    match pc
    case Idle => st == Quiet
    case GetHead(k) => st == Pending(Get(k))
    case GetLoad(k, _, hit) => st == if hit then Pending(Get(k)) else Linearized(Get(k), Found(""))
    case GetCompare(k, _, _, hit) => st == if hit then Pending(Get(k)) else Linearized(Get(k), Found(""))
    case GetReload(k, _) => st == Pending(Get(k))
    case GetRead(k, _, p) => p in s.mem && s.mem[p].Pair? && st == Linearized(Get(k), Found(s.mem[p].value))
    case GetReturn(k, r) => st == Linearized(Get(k), Found(r))
    case PutDrop(k, v, _) => st == Linearized(Put(k, v), Done(true))
    case PutUnlock(k, v, ok) => st == Linearized(Put(k, v), Done(ok))
    case PutReturn(k, v, ok) => st == Linearized(Put(k, v), Done(ok))
    case _ => st == Pending(Put(pc.k, pc.v))
  }

  ghost predicate Locked(s: State) {
    && (s.lock.Some? ==> s.lock.value in s.threads)
    && (forall t <- s.threads :: Critical(s.threads[t].pc) <==> s.lock == Some(t))
    && |s.payloads| == |s.links|
    && |s.links| == s.npub + (if s.lock.Some? && Making(s.threads[s.lock.value].pc) then 1 else 0)
  }

  // Payloads carry the key of their bucket.
  ghost predicate Keyed(s: State) {
    && |s.payloads| == |s.links| && s.npub <= |s.links|
    && (forall i :: 0 <= i < |s.payloads| && s.payloads[i].Some? ==> Holds(s.mem, s.payloads[i].value, s.links[i].key))
    && (forall i :: 0 <= i < s.npub ==> s.payloads[i].Some?)
  }

  // The published buckets hold exactly the map of the linearized operations.
  ghost predicate Represents(s: State) {
    && |s.payloads| == |s.links| && s.npub <= |s.links|
    && (forall k :: k in Abs(s.hist) <==> Published(s.links, s.npub, k))
    && (forall i :: 0 <= i < s.npub ==>
          && s.payloads[i].Some? && s.payloads[i].value in s.mem && s.links[i].key in Abs(s.hist)
          && s.mem[s.payloads[i].value] == Pair(s.links[i].key, Abs(s.hist)[s.links[i].key]))
  }

  ghost predicate Inv(s: State) {
    && Own(s)
    && Chained(s.links, s.heads, s.npub, s.slot)
    && Locked(s)
    && Keyed(s)
    && Represents(s)
    && Legal(s.hist)
    && (forall t <- s.threads :: Local(s, s.threads[t].pc))
    && (forall t <- s.threads :: Recorded(s, t, s.threads[t].pc))
  }
}
