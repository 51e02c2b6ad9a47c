// Every step of the concurrent table keeps the invariant.
module ConcurrentSteps {
  import opened Options
  import opened ConcurrentTable
  import opened ConcurrentOwnership
  import opened ConcurrentChains
  import opened ConcurrentInvariant

  // --- what a step of one thread leaves alone for another -------------------------------------------------

  // Nothing another thread could be looking at changes: payloads that are held keep their contents.
  ghost predicate Quietly(s: State, s': State) {
    && s'.slot == s.slot && s'.links == s.links && s'.payloads == s.payloads && s'.heads == s.heads && s'.npub == s.npub
  }

  // The address whose contents a thread at pc depends on.
  ghost predicate Uses(pc: Pc, p: Addr) { RefOf(pc) == Some(p) || RawOf(pc) == Some(p) }

  // A step that leaves the shared structure alone.
  lemma LocalKept(s: State, s': State, pc: Pc)
    requires Local(s, pc) && Quietly(s, s')
    requires forall p :: p in s.mem && (Uses(pc, p) || Some(p) in s.payloads) ==> p in s'.mem && s'.mem[p] == s.mem[p]
    ensures Local(s', pc)
  {
  }

  lemma KeptLocal(s: State, s': State, pc: Pc)
    requires Local(s, pc) && Quietly(s, s') && s'.mem == s.mem
    ensures Local(s', pc)
  {
    LocalKept(s, s', pc);
  }

  // A step of the put that holds the lock, seen from a thread that does not.
  lemma LocalOutside(s: State, s': State, pc: Pc)
    requires Local(s, pc) && !Critical(pc) && s'.slot == s.slot && SameBelow(s.links, s'.links, s.npub)
      && s.npub <= s'.npub <= |s'.links|
    requires forall p :: p in s.mem && RefOf(pc) == Some(p) ==> p in s'.mem && s'.mem[p] == s.mem[p]
    ensures Local(s', pc)
  {
    match pc
    case GetLoad(k, b, hit) => SameHas(s.links, s'.links, s.npub, b, k);
    case GetCompare(k, b, p, hit) => SameHas(s.links, s'.links, s.npub, b, k);
    case _ =>
  }

  lemma TrackLog(h: seq<Event>, e: Event, t: Tid)
    ensures e.t != t ==> Track(h + [e], t) == Track(h, t)
    ensures Abs(h + [e]) == if e.Linearize? && e.op.Put? && e.res == Done(true) then Abs(h)[e.op.key := e.op.value]
      else Abs(h)
    ensures Legal(h) && (e.Linearize? ==> Answers(Abs(h), e.op, e.res)) ==> Legal(h + [e])
  {
    assert (h + [e])[..|h|] == h;
  }

  lemma TrackSelf(h: seq<Event>, e: Event)
    ensures Track(h + [e], e.t) == match e
      case Invoke(_, op) => if Track(h, e.t) == Quiet then Pending(op) else Broken
      case Linearize(_, op, res) => if Track(h, e.t) == Pending(op) then Linearized(op, res) else Broken
      case Respond(_, op, res) => if Track(h, e.t) == Linearized(op, res) then Quiet else Broken
  {
    assert (h + [e])[..|h|] == h;
  }

  // The history grows by at most one event, of thread t.
  ghost predicate LogBy(h: seq<Event>, h': seq<Event>, t: Tid) {
    h' == h || exists e: Event :: e.t == t && h' == h + [e]
  }

  lemma OtherTrack(h: seq<Event>, h': seq<Event>, t: Tid, u: Tid)
    requires LogBy(h, h', t) && u != t
    ensures Track(h', u) == Track(h, u)
  {
    if h' != h {
      var e: Event :| e.t == t && h' == h + [e];
      TrackLog(h, e, u);
    }
  }

  // The contents of p can change without any thread but t, or any bucket, noticing.
  ghost predicate Unnoticed(s: State, t: Tid, p: Addr) {
    && (forall i :: 0 <= i < |s.payloads| ==> s.payloads[i] != Some(p))
    && (forall u <- s.threads :: u != t ==> !Uses(s.threads[u].pc, p))
  }

  ghost predicate MemKept(s: State, s': State, t: Tid) {
    forall p <- s.mem :: (p in s'.mem && s'.mem[p] == s.mem[p]) || Unnoticed(s, t, p)
  }

  // What remains true for everyone else when t moves without changing the chains or the payload pointers.
  lemma OthersQuiet(s: State, s': State, t: Tid, u: Tid)
    requires Inv(s) && Quietly(s, s') && MemKept(s, s', t) && LogBy(s.hist, s'.hist, t)
    requires u in s.threads && u != t
    ensures Local(s', s.threads[u].pc) && Recorded(s', u, s.threads[u].pc)
  {
    var pc := s.threads[u].pc;
    assert Local(s, pc) && Recorded(s, u, pc);
    OtherTrack(s.hist, s'.hist, t, u);
    LocalKept(s, s', pc);
  }

  lemma QuietShared(s: State, s': State, t: Tid)
    requires Inv(s) && Quietly(s, s') && MemKept(s, s', t)
    ensures Chained(s'.links, s'.heads, s'.npub, s'.slot) && Keyed(s')
    ensures Abs(s'.hist) == Abs(s.hist) ==> Represents(s')
  {
    hide Own, Legal, Local, Recorded, Locked, Chained;
    forall i | 0 <= i < |s.payloads| && s.payloads[i].Some?
      ensures s.payloads[i].value in s'.mem && s'.mem[s.payloads[i].value] == s.mem[s.payloads[i].value]
    {
      assert Holds(s.mem, s.payloads[i].value, s.links[i].key);
    }
  }

  lemma QuietLocked(s: State, s': State, t: Tid, th: Thread)
    requires Locked(s) && Quietly(s, s') && t in s.threads && s'.threads == s.threads[t := th] && s'.lock == s.lock
    requires Critical(th.pc) == Critical(s.threads[t].pc) && Making(th.pc) == Making(s.threads[t].pc)
    ensures Locked(s')
  {
  }

  // A thread moves on, possibly logging an event, and nothing else happens.
  lemma Assemble(s: State, s': State, t: Tid, th: Thread)
    requires Inv(s) && Quietly(s, s') && MemKept(s, s', t) && LogBy(s.hist, s'.hist, t)
    requires t in s.threads && s'.threads == s.threads[t := th]
    requires Own(s') && Locked(s') && Legal(s'.hist) && Abs(s'.hist) == Abs(s.hist)
    requires Local(s', th.pc) && Recorded(s', t, th.pc)
    ensures Inv(s')
  {
    QuietShared(s, s', t);
    hide Own, Legal, Local, Recorded, Locked, Chained, Keyed, Represents, MemKept, Quietly;
    forall u | u in s'.threads
      ensures Local(s', s'.threads[u].pc) && Recorded(s', u, s'.threads[u].pc)
    {
      if u != t { OthersQuiet(s, s', t, u); }
    }
  }

  // --- steps that leave chains and payload pointers alone ------------------------------------------------

  lemma LogIs(h: seq<Event>, h': seq<Event>, e: Event)
    requires h' == h + [e]
    ensures LogBy(h, h', e.t)
  {
  }

  lemma Parts(s: State)
    requires Inv(s)
    ensures Own(s) && Chained(s.links, s.heads, s.npub, s.slot) && Locked(s) && Keyed(s) && Represents(s)
      && Legal(s.hist)
    ensures s.npub <= |s.links| && SameBelow(s.links, s.links, s.npub)
  {
  }

  lemma Here(s: State, t: Tid)
    requires Inv(s) && t in s.threads
    ensures Local(s, s.threads[t].pc) && Recorded(s, t, s.threads[t].pc)
  {
  }

  lemma CallInv(s: State, s': State, t: Tid, op: Op)
    requires Inv(s) && StepCall(s, s', t, op)
    ensures Inv(s')
  {
    hide Own, Chained, Locked, Keyed, Represents, Legal, Track, Abs;
    Here(s, t);
    OwnMove(s, s', t, s'.threads[t].pc);
    QuietLocked(s, s', t, s'.threads[t]);
    var e := Invoke(t, op);
    TrackLog(s.hist, e, t);
    TrackSelf(s.hist, e);
    LogIs(s.hist, s'.hist, e);
    Assemble(s, s', t, s'.threads[t]);
  }

  // At the head load, the bookkeeping bit says whether the walk will meet the key.
  lemma HeadFacts(s: State, k: Key)
    requires Inv(s)
    ensures k in Abs(s.hist) <==> Published(s.links, s.npub, k)
    ensures s.slot(k) in s.heads ==> OnChain(s, s.heads[s.slot(k)], k, k in Abs(s.hist))
    ensures s.slot(k) !in s.heads ==> k !in Abs(s.hist)
  {
    HeadHas(s.links, s.heads, s.npub, s.slot, k);
  }

  lemma GetHeadShape(s: State, s': State, t: Tid, k: Key, e: Event, th: Thread)
    requires Legal(s.hist) && StepGetHead(s, s', t) && k == s.threads[t].pc.k && e == Linearize(t, Get(k), Found(""))
      && th == s'.threads[t]
    requires Recorded(s, t, s.threads[t].pc) && (s.slot(k) in s.heads
      ==> OnChain(s, s.heads[s.slot(k)], k, k in Abs(s.hist)))
    requires s.slot(k) !in s.heads ==> k !in Abs(s.hist)
    requires Track(s.hist + [e], t) == if Track(s.hist, t) == Pending(e.op) then Linearized(e.op, e.res) else Broken
    ensures t in s.threads && s.threads[t].dying.None? && s'.threads == s.threads[t := th] == Move(s, t, th.pc)
    ensures Quietly(s, s') && MemKept(s, s', t) && s'.mem == s.mem && s'.mem.Keys == s.mem.Keys && s'.rc == s.rc
      && s'.lock == s.lock
    ensures s'.hist == if k in Abs(s.hist) then s.hist else s.hist + [e]
    ensures LogBy(s.hist, s'.hist, t) && (k !in Abs(s.hist) ==> Answers(Abs(s.hist), e.op, e.res))
    ensures RefOf(th.pc) == RefOf(s.threads[t].pc) && RawOf(th.pc) == RawOf(s.threads[t].pc)
    ensures Critical(th.pc) == Critical(s.threads[t].pc) && Making(th.pc) == Making(s.threads[t].pc)
    ensures Local(s', th.pc) && Recorded(s', t, th.pc)
  {
    hide Legal, Track, Abs, Published, Has, Unnoticed;
  }

  lemma GetHeadInv(s: State, s': State, t: Tid)
    requires Inv(s) && StepGetHead(s, s', t)
    ensures Inv(s')
  {
    var k, th := s.threads[t].pc.k, s'.threads[t];
    var e := Linearize(t, Get(k), Found(""));
    Here(s, t);
    hide *;
    Parts(s);
    HeadFacts(s, k);
    TrackLog(s.hist, e, t);
    TrackSelf(s.hist, e);
    LogIs(s.hist, s.hist + [e], e);
    GetHeadShape(s, s', t, k, e, th);
    OwnMove(s, s', t, th.pc);
    QuietLocked(s, s', t, th);
    Assemble(s, s', t, th);
  }

  // Loading the payload of a published bucket yields a live, counted pair with the bucket's key.
  lemma LoadFacts(s: State, b: nat)
    requires Inv(s) && b < s.npub
    ensures b < |s.payloads| == |s.links| && s.payloads[b].Some?
    ensures var p := s.payloads[b].value; p in s.rc && s.rc[p] > 0 && Holds(s.mem, p, s.links[b].key)
  {
    hide Count;
    Referenced(s.payloads, s.threads, s.payloads[b].value);
  }

  lemma GetLoadInv(s: State, s': State, t: Tid)
    requires Inv(s) && StepGetLoad(s, s', t)
    ensures Inv(s')
  {
    hide Own, Chained, Locked, Keyed, Represents, Legal, Track, Abs, Published, Has;
    Here(s, t);
    LoadFacts(s, s.threads[t].pc.b);
    OwnLoad(s, s', t, s.payloads[s.threads[t].pc.b].value, s'.threads[t].pc);
    QuietLocked(s, s', t, s'.threads[t]);
    Assemble(s, s', t, s'.threads[t]);
  }

  // One comparison along the chain.
  lemma NextFacts(s: State, b: nat, k: Key, hit: bool)
    requires Inv(s) && OnChain(s, b, k, hit)
    ensures s.links[b].key == k ==> hit
    ensures s.links[b].key != k && s.links[b].next.Some? ==> OnChain(s, s.links[b].next.value, k, hit)
    ensures s.links[b].key != k && s.links[b].next.None? ==> !hit
  {
    assert Older(s.links, b, s.slot);
  }

  // A held reference is counted.
  lemma HeldFacts(s: State, t: Tid, p: Addr)
    requires Inv(s) && t in s.threads && RefOf(s.threads[t].pc) == Some(p)
    ensures p in s.rc && s.rc[p] > 0 && p in s.mem
  {
    hide Count;
    Referenced(s.payloads, s.threads, p);
  }

  lemma GetCompareInv(s: State, s': State, t: Tid)
    requires Inv(s) && StepGetCompare(s, s', t)
    ensures Inv(s')
  {
    hide Own, Chained, Locked, Keyed, Represents, Legal, Track, Abs, Published, Has;
    Here(s, t);
    var pc := s.threads[t].pc;
    NextFacts(s, pc.b, pc.k, pc.hit);
    OwnDrop(s, s', t, pc.p, s'.threads[t].pc);
    QuietLocked(s, s', t, s'.threads[t]);
    Assemble(s, s', t, s'.threads[t]);
  }

  lemma PayloadFacts(s: State, b: nat)
    requires Inv(s) && b < s.npub
    ensures b < |s.payloads| && b < |s.links| && s.payloads[b].Some? && s.payloads[b].value in s.mem
      && s.links[b].key in Abs(s.hist)
    ensures s.mem[s.payloads[b].value] == Pair(s.links[b].key, Abs(s.hist)[s.links[b].key])
  {
  }

  lemma GetReloadInv(s: State, s': State, t: Tid)
    requires Inv(s) && StepGetReload(s, s', t)
    ensures Inv(s')
  {
    hide Own, Chained, Locked, Keyed, Represents, Legal, Track, Abs, Published, Has;
    Here(s, t);
    var pc := s.threads[t].pc;
    LoadFacts(s, pc.b);
    PayloadFacts(s, pc.b);
    var p := s.payloads[pc.b].value;
    OwnLoad(s, s', t, p, s'.threads[t].pc);
    QuietLocked(s, s', t, s'.threads[t]);
    var e := Linearize(t, Get(pc.k), Found(s.mem[p].value));
    TrackLog(s.hist, e, t);
    TrackSelf(s.hist, e);
    LogIs(s.hist, s'.hist, e);
    Assemble(s, s', t, s'.threads[t]);
  }

  lemma GetReadInv(s: State, s': State, t: Tid)
    requires Inv(s) && StepGetRead(s, s', t)
    ensures Inv(s')
  {
    hide Own, Chained, Locked, Keyed, Represents, Legal, Track, Abs, Published, Has;
    Here(s, t);
    OwnDrop(s, s', t, s.threads[t].pc.p, s'.threads[t].pc);
    QuietLocked(s, s', t, s'.threads[t]);
    Assemble(s, s', t, s'.threads[t]);
  }

  lemma GetReturnInv(s: State, s': State, t: Tid)
    requires Inv(s) && StepGetReturn(s, s', t)
    ensures Inv(s')
  {
    hide Own, Chained, Locked, Keyed, Represents, Legal, Track, Abs, Published, Has;
    Here(s, t);
    OwnMove(s, s', t, Idle);
    QuietLocked(s, s', t, s'.threads[t]);
    var e := Respond(t, Get(s.threads[t].pc.k), Found(s.threads[t].pc.r));
    TrackLog(s.hist, e, t);
    TrackSelf(s.hist, e);
    LogIs(s.hist, s'.hist, e);
    Assemble(s, s', t, s'.threads[t]);
  }

  lemma PutLockInv(s: State, s': State, t: Tid)
    requires Inv(s) && StepPutLock(s, s', t)
    ensures Inv(s')
  {
    hide Own, Chained, Keyed, Represents, Legal, Track, Abs, Published, Has;
    Here(s, t);
    OwnMove(s, s', t, s'.threads[t].pc);
    assert Locked(s');
    hide Locked;
    Assemble(s, s', t, s'.threads[t]);
  }

  lemma PutAllocInv(s: State, s': State, t: Tid, a: Option<Addr>)
    requires Inv(s) && StepPutAlloc(s, s', t, a)
    ensures Inv(s')
  {
    hide Own, Chained, Locked, Keyed, Represents, Legal, Track, Abs, Published, Has;
    LockHeld(s, t);
    Here(s, t);
    var pc := s.threads[t].pc;
    match a
    case Some(x) =>
      OwnAlloc(s, s', t, x, s'.threads[t].pc);
      QuietLocked(s, s', t, s'.threads[t]);
      Assemble(s, s', t, s'.threads[t]);
    case None => PutFailInv(s, s', t);
  }

  lemma PutFailInv(s: State, s': State, t: Tid)
    requires Inv(s) && StepPutAlloc(s, s', t, None)
    ensures Inv(s')
  {
    hide Own, Chained, Locked, Keyed, Represents, Legal, Track, Abs, Published, Has;
    Here(s, t);
    var pc := s.threads[t].pc;
    OwnMove(s, s', t, s'.threads[t].pc);
    QuietLocked(s, s', t, s'.threads[t]);
    var e := Linearize(t, Put(pc.k, pc.v), Done(false));
    TrackLog(s.hist, e, t);
    TrackSelf(s.hist, e);
    LogIs(s.hist, s'.hist, e);
    Assemble(s, s', t, s'.threads[t]);
  }

  lemma LockHeld(s: State, t: Tid)
    requires Inv(s) && t in s.threads && Critical(s.threads[t].pc)
    ensures s.lock == Some(t) && forall u <- s.threads :: u != t ==> !Critical(s.threads[u].pc)
    ensures |s.payloads| == |s.links| == s.npub + (if Making(s.threads[t].pc) then 1 else 0)
  {
  }

  lemma PutHeadInv(s: State, s': State, t: Tid)
    requires Inv(s) && StepPutHead(s, s', t)
    ensures Inv(s')
  {
    hide Own, Chained, Locked, Keyed, Represents, Legal, Track, Abs, Published, Has;
    Here(s, t);
    HeadFacts(s, s.threads[t].pc.k);
    OwnMove(s, s', t, s'.threads[t].pc);
    QuietLocked(s, s', t, s'.threads[t]);
    Assemble(s, s', t, s'.threads[t]);
  }

  lemma PutLoadInv(s: State, s': State, t: Tid)
    requires Inv(s) && StepPutLoad(s, s', t)
    ensures Inv(s')
  {
    hide Own, Chained, Locked, Keyed, Represents, Legal, Track, Abs, Published, Has;
    Here(s, t);
    LoadFacts(s, s.threads[t].pc.b);
    OwnLoad(s, s', t, s.payloads[s.threads[t].pc.b].value, s'.threads[t].pc);
    QuietLocked(s, s', t, s'.threads[t]);
    Assemble(s, s', t, s'.threads[t]);
  }

  // Where a put goes after a comparison, it finds what it relies on.
  lemma PutCompareLocal(s: State, pc: Pc, next: Pc)
    requires pc.PutCompare? && pc.p in s.mem && s.mem[pc.p].Pair? && pc.b < |s.links|
    requires next == if s.mem[pc.p].key == pc.k then PutWrite(pc.k, pc.v, pc.a, pc.b, false)
      else AfterPut(s, pc.k, pc.v, pc.a, pc.b)
    requires Inv(s) && Local(s, pc) && |s.payloads| == |s.links|
    ensures Local(s, next) && RefOf(next).None? && RawOf(next) == Some(pc.a) && Critical(next) && !Making(next)
  {
    hide Own, Chained, Locked, Keyed, Represents, Legal, Track, Abs, Published, Has;
    NextFacts(s, pc.b, pc.k, Published(s.links, s.npub, pc.k));
  }

  lemma PutCompareShape(s: State, s': State, t: Tid, pc: Pc, th: Thread)
    requires StepPutCompare(s, s', t) && pc == s.threads[t].pc && th == s'.threads[t]
    ensures Droppable(s, pc.p) && pc.p in s.mem && s.mem[pc.p].Pair?
    ensures pc.b < |s.links| && t in s.threads && s.threads[t].dying.None?
    ensures th.pc == if s.mem[pc.p].key == pc.k then PutWrite(pc.k, pc.v, pc.a, pc.b, false)
      else AfterPut(s, pc.k, pc.v, pc.a, pc.b)
    ensures s'.threads == s.threads[t := th]
    ensures Quietly(s, s') && s'.mem == s.mem && s'.hist == s.hist && s'.lock == s.lock
    ensures Critical(pc) && !Making(pc) && pc.PutCompare? && RefOf(pc) == Some(pc.p) && RawOf(pc) == Some(pc.a)
  {
  }

  lemma PutCompareDrops(s: State, s': State, t: Tid, pc: Pc, th: Thread)
    requires StepPutCompare(s, s', t) && pc == s.threads[t].pc && th == s'.threads[t] && Recorded(s, t, pc)
    ensures Dropping(s, s', t, pc.p, th.pc) && Recorded(s', t, th.pc) && LogBy(s.hist, s'.hist, t) && MemKept(s, s', t)
  {
    hide Track, Unnoticed;
  }

  lemma PutCompareInv(s: State, s': State, t: Tid)
    requires Inv(s) && StepPutCompare(s, s', t)
    ensures Inv(s')
  {
    var pc, th := s.threads[t].pc, s'.threads[t];
    PutCompareShape(s, s', t, pc, th);
    hide *;
    LockHeld(s, t);
    Here(s, t);
    PutCompareDrops(s, s', t, pc, th);
    PutCompareLocal(s, pc, th.pc);
    KeptLocal(s, s', th.pc);
    Parts(s);
    OwnDrop(s, s', t, pc.p, th.pc);
    QuietLocked(s, s', t, th);
    Assemble(s, s', t, th);
  }

  // Nobody else looks at the block a put has not yet handed over.
  lemma RawFacts(s: State, t: Tid, a: Addr)
    requires Inv(s) && t in s.threads && RawOf(s.threads[t].pc) == Some(a)
    ensures a in s.mem && a !in s.rc && Unnoticed(s, t, a)
  {
    hide Counted, Dying;
  }

  lemma PutWriteInv(s: State, s': State, t: Tid)
    requires Inv(s) && StepPutWrite(s, s', t)
    ensures Inv(s')
  {
    hide Own, Chained, Locked, Keyed, Represents, Legal, Track, Abs, Published, Has;
    Here(s, t);
    var pc := s.threads[t].pc;
    RawFacts(s, t, pc.a);
    assert s'.mem.Keys == s.mem.Keys;
    OwnMove(s, s', t, s'.threads[t].pc);
    QuietLocked(s, s', t, s'.threads[t]);
    Assemble(s, s', t, s'.threads[t]);
  }

  lemma PutDropInv(s: State, s': State, t: Tid)
    requires Inv(s) && StepPutDrop(s, s', t)
    ensures Inv(s')
  {
    hide Own, Chained, Locked, Keyed, Represents, Legal, Track, Abs, Published, Has;
    Here(s, t);
    OwnDrop(s, s', t, s.threads[t].pc.p, s'.threads[t].pc);
    QuietLocked(s, s', t, s'.threads[t]);
    Assemble(s, s', t, s'.threads[t]);
  }

  lemma Unlocked(s: State, s': State, t: Tid)
    requires Locked(s) && StepPutUnlock(s, s', t)
    ensures Locked(s')
  {
  }

  lemma PutUnlockInv(s: State, s': State, t: Tid)
    requires Inv(s) && StepPutUnlock(s, s', t)
    ensures Inv(s')
  {
    hide Own, Chained, Keyed, Represents, Legal, Track, Abs, Published, Has, Locked;
    LockHeld(s, t);
    Here(s, t);
    OwnMove(s, s', t, s'.threads[t].pc);
    Unlocked(s, s', t);
    Assemble(s, s', t, s'.threads[t]);
  }

  lemma PutReturnInv(s: State, s': State, t: Tid)
    requires Inv(s) && StepPutReturn(s, s', t)
    ensures Inv(s')
  {
    hide Own, Chained, Locked, Keyed, Represents, Legal, Track, Abs, Published, Has;
    Here(s, t);
    OwnMove(s, s', t, Idle);
    QuietLocked(s, s', t, s'.threads[t]);
    var pc := s.threads[t].pc;
    var e := Respond(t, Put(pc.k, pc.v), Done(pc.ok));
    TrackLog(s.hist, e, t);
    TrackSelf(s.hist, e);
    LogIs(s.hist, s'.hist, e);
    Assemble(s, s', t, s'.threads[t]);
  }

  // A block that is about to be freed is referred to by nobody.
  lemma DyingFacts(s: State, t: Tid, p: Addr)
    requires Inv(s) && t in s.threads && s.threads[t].dying == Some(p)
    ensures p in s.rc && s.rc[p] == 0 && p in s.mem
    ensures (forall i :: 0 <= i < |s.payloads| ==> s.payloads[i] != Some(p)) && forall u <- s.threads ::
      !Uses(s.threads[u].pc, p)
  {
    hide Count;
    Referenced(s.payloads, s.threads, p);
  }

  lemma FreeInv(s: State, s': State, t: Tid)
    requires Inv(s) && StepFree(s, s', t)
    ensures Inv(s')
  {
    hide Own, Chained, Locked, Keyed, Represents, Legal, Track, Abs, Published, Has;
    Here(s, t);
    var p := s.threads[t].dying.value;
    DyingFacts(s, t, p);
    OwnFree(s, s', t, p);
    QuietLocked(s, s', t, s'.threads[t]);
    LocalKept(s, s', s.threads[t].pc);
    Assemble(s, s', t, s'.threads[t]);
  }

  // --- steps of the lock holder that change chains or payload pointers --------------------------------------

  lemma OthersOutside(s: State, s': State, t: Tid, u: Tid)
    requires Inv(s) && t in s.threads && Critical(s.threads[t].pc) && LogBy(s.hist, s'.hist, t)
    requires s'.slot == s.slot && SameBelow(s.links, s'.links, s.npub) && s.npub <= s'.npub <= |s'.links|
      && s'.mem == s.mem
    requires u in s.threads && u != t
    ensures Local(s', s.threads[u].pc) && Recorded(s', u, s.threads[u].pc)
  {
    LockHeld(s, t);
    Here(s, u);
    hide Inv, Track, Has, Published;
    OtherTrack(s.hist, s'.hist, t, u);
    LocalOutside(s, s', s.threads[u].pc);
  }

  lemma AssembleLocked(s: State, s': State, t: Tid, th: Thread)
    requires Inv(s) && t in s.threads && Critical(s.threads[t].pc) && LogBy(s.hist, s'.hist, t)
      && s'.threads == s.threads[t := th]
    requires s'.slot == s.slot && SameBelow(s.links, s'.links, s.npub) && s.npub <= s'.npub <= |s'.links|
      && s'.mem == s.mem
    requires Own(s') && Chained(s'.links, s'.heads, s'.npub, s'.slot) && Locked(s') && Keyed(s') && Represents(s')
      && Legal(s'.hist)
    requires Local(s', th.pc) && Recorded(s', t, th.pc)
    ensures Inv(s')
  {
    hide Own, Legal, Local, Recorded, Locked, Chained, Keyed, Represents, SameBelow, LogBy;
    forall u | u in s'.threads
      ensures Local(s', s'.threads[u].pc) && Recorded(s', u, s'.threads[u].pc)
    {
      if u != t { OthersOutside(s, s', t, u); }
    }
  }

  lemma AllPublished(s: State, s': State)
    requires SameBelow(s.links, s'.links, s.npub)
    ensures forall k :: Published(s'.links, s.npub, k) == Published(s.links, s.npub, k)
  {
    forall k
      ensures Published(s'.links, s.npub, k) == Published(s.links, s.npub, k)
    {
      SamePublished(s.links, s'.links, s.npub, k);
    }
  }

  // Links beyond the published buckets and payloads of private buckets do not matter to the map.
  lemma PrivateChange(s: State, s': State)
    requires Inv(s) && SameBelow(s.links, s'.links, s.npub) && s'.npub == s.npub && s'.heads == s.heads
      && s'.slot == s.slot
    requires |s'.payloads| == |s'.links| && (forall i :: 0 <= i < s.npub ==> s'.payloads[i] == s.payloads[i])
    requires s'.mem == s.mem && s'.hist == s.hist
    requires forall i :: s.npub <= i < |s'.payloads| && s'.payloads[i].Some? ==> Holds(s.mem, s'.payloads[i].value, s'.links[i].key)
    ensures Chained(s'.links, s'.heads, s'.npub, s'.slot) && Keyed(s') && Represents(s')
  {
    hide Own, Legal, Local, Recorded, Locked, Abs, Published;
    SameChained(s.links, s'.links, s.heads, s.npub, s.slot);
    AllPublished(s, s');
    hide Chained;
  }

  lemma LockedStep(s: State, s': State, t: Tid, th: Thread)
    requires Locked(s) && t in s.threads && s'.threads == s.threads[t := th] && s'.lock == s.lock == Some(t)
    requires Critical(th.pc) && |s'.payloads| == |s'.links| == s'.npub + if Making(th.pc) then 1 else 0
    ensures Locked(s')
  {
  }

  lemma PutNewInv(s: State, s': State, t: Tid)
    requires Inv(s) && StepPutNew(s, s', t)
    ensures Inv(s')
  {
    hide Own, Chained, Locked, Keyed, Represents, Legal, Track, Abs, Published, Has;
    LockHeld(s, t);
    Here(s, t);
    var th := s'.threads[t];
    SamePublished(s.links, s'.links, s.npub, th.pc.k);
    OwnMove(s, s', t, th.pc);
    LockedStep(s, s', t, th);
    PrivateChange(s, s');
    AssembleLocked(s, s', t, th);
  }

  lemma PutLinkShape(s: State, s': State, t: Tid, pc: Pc, th: Thread)
    requires StepPutLink(s, s', t) && pc == s.threads[t].pc && th == s'.threads[t] && Local(s, pc) && Recorded(s, t, pc)
    requires |s.payloads| == |s.links| == s.npub + 1
    ensures t in s.threads && s.threads[t].dying.None? && s'.threads == s.threads[t := th] == Move(s, t, th.pc)
    ensures s'.rc == s.rc && s'.mem == s.mem && s'.mem.Keys == s.mem.Keys && s'.hist == s.hist && s'.lock == s.lock
    ensures s'.payloads == s.payloads && |s'.links| == |s.links| && SameBelow(s.links, s'.links, s.npub)
    ensures s'.npub == s.npub && s'.heads == s.heads && s'.slot == s.slot
    ensures RefOf(pc) == RefOf(th.pc) == None && RawOf(pc) == RawOf(th.pc) == None && Critical(th.pc) && Making(th.pc)
    ensures Local(s', th.pc) && Recorded(s', t, th.pc) && LogBy(s.hist, s'.hist, t)
    ensures forall i :: s.npub <= i < |s'.payloads| && s'.payloads[i].Some? ==> Holds(s.mem, s'.payloads[i].value, s'.links[i].key)
  {
    hide Published, Track;
    SamePublished(s.links, s'.links, s.npub, th.pc.k);
  }

  lemma PutLinkInv(s: State, s': State, t: Tid)
    requires Inv(s) && StepPutLink(s, s', t)
    ensures Inv(s')
  {
    var pc, th := s.threads[t].pc, s'.threads[t];
    assert t in s.threads && Critical(pc) && Making(pc);
    hide *;
    LockHeld(s, t);
    Here(s, t);
    Parts(s);
    PutLinkShape(s, s', t, pc, th);
    OwnMove(s, s', t, th.pc);
    LockedStep(s, s', t, th);
    PrivateChange(s, s');
    AssembleLocked(s, s', t, th);
  }

  lemma PutStoreNewShape(s: State, s': State, t: Tid, pc: Pc, th: Thread)
    requires StepPutStore(s, s', t) && pc == s.threads[t].pc && th == s'.threads[t] && Local(s, pc)
      && Recorded(s, t, pc)
    requires pc.isNew && |s.payloads| == |s.links| == s.npub + 1
    ensures t in s.threads && s.threads[t].dying.None? && s'.threads == s.threads[t := th] == Move(s, t, th.pc)
    ensures pc.b < |s.payloads| && s'.payloads == s.payloads[pc.b := Some(pc.a)] && s'.rc == s.rc[pc.a := 1]
    ensures s'.mem == s.mem && s'.hist == s.hist && s'.lock == s.lock && s'.links == s.links
    ensures s'.npub == s.npub && s'.heads == s.heads && s'.slot == s.slot
    ensures RefOf(pc).None? && RawOf(pc) == Some(pc.a) && RawOf(th.pc).None? && RefOf(th.pc) == s.payloads[pc.b]
      && Critical(th.pc)
      && Making(th.pc)
    ensures Local(s', th.pc) && Recorded(s', t, th.pc) && LogBy(s.hist, s'.hist, t)
      && SameBelow(s.links, s'.links, s.npub)
    ensures forall i :: 0 <= i < s.npub ==> s'.payloads[i] == s.payloads[i]
    ensures forall i :: s.npub <= i < |s'.payloads| && s'.payloads[i].Some? ==> Holds(s.mem, s'.payloads[i].value, s'.links[i].key)
  {
    hide Published, Track;
  }

  lemma PutStoreNewInv(s: State, s': State, t: Tid)
    requires Inv(s) && StepPutStore(s, s', t) && s.threads[t].pc.isNew
    ensures Inv(s')
  {
    var pc, th := s.threads[t].pc, s'.threads[t];
    assert t in s.threads && Critical(pc) && Making(pc);
    hide *;
    LockHeld(s, t);
    Here(s, t);
    Parts(s);
    PutStoreNewShape(s, s', t, pc, th);
    OwnStore(s, s', t, pc.a, pc.b, th.pc);
    LockedStep(s, s', t, th);
    PrivateChange(s, s');
    AssembleLocked(s, s', t, th);
  }

  lemma OnlyBucket(s: State, b: nat, k: Key)
    requires Chained(s.links, s.heads, s.npub, s.slot) && b < s.npub <= |s.links| && s.links[b].key == k
    ensures forall i :: 0 <= i < s.npub && i != b ==> s.links[i].key != k
  {
    forall i | 0 <= i < s.npub && i != b
      ensures s.links[i].key != k
    {
      if i < b { assert s.links[i].key != s.links[b].key; }
    }
  }

  ghost predicate Overwrites(s: State, s': State, b: nat, a: Addr, k: Key, v: Value) {
    && b < s.npub <= |s.links| == |s.payloads| && s.links[b].key == k && a in s.mem && s.mem[a] == Pair(k, v)
    && s'.links == s.links && s'.npub == s.npub && s'.mem == s.mem
    && s'.payloads == s.payloads[b := Some(a)] && Abs(s'.hist) == Abs(s.hist)[k := v]
  }

  lemma OverwriteKeyed(s: State, s': State, b: nat, a: Addr, k: Key, v: Value)
    requires Keyed(s) && Overwrites(s, s', b, a, k, v)
    ensures Keyed(s')
  {
    hide Abs;
  }

  lemma OverwriteRepresents(s: State, s': State, b: nat, a: Addr, k: Key, v: Value)
    requires Represents(s) && Overwrites(s, s', b, a, k, v) && Published(s.links, s.npub, k)
    requires forall i :: 0 <= i < s.npub && i != b ==> s.links[i].key != k
    ensures Represents(s')
  {
    hide Abs, Published;
  }

  // The overwriting store: one published bucket gets another pair with its key.
  lemma OverwriteShared(s: State, s': State, b: nat, a: Addr, k: Key, v: Value)
    requires Inv(s) && b < s.npub <= |s.links| == |s.payloads| && s.links[b].key == k && a in s.mem
      && s.mem[a] == Pair(k, v)
    requires s'.links == s.links && s'.npub == s.npub && s'.mem == s.mem
    requires s'.payloads == s.payloads[b := Some(a)] && Abs(s'.hist) == Abs(s.hist)[k := v]
    ensures Keyed(s') && Represents(s')
  {
    assert Overwrites(s, s', b, a, k, v);
    assert Published(s.links, s.npub, k);
    Parts(s);
    hide *;
    OnlyBucket(s, b, k);
    OverwriteKeyed(s, s', b, a, k, v);
    OverwriteRepresents(s, s', b, a, k, v);
  }

  // A successful put reaches its linearization point.
  lemma PutLogs(s: State, s': State, t: Tid, k: Key, v: Value)
    requires Legal(s.hist) && Track(s.hist, t) == Pending(Put(k, v))
      && s'.hist == s.hist + [Linearize(t, Put(k, v), Done(true))]
    ensures LogBy(s.hist, s'.hist, t) && Legal(s'.hist) && Abs(s'.hist) == Abs(s.hist)[k := v]
    ensures Track(s'.hist, t) == Linearized(Put(k, v), Done(true))
  {
    var e := Linearize(t, Put(k, v), Done(true));
    TrackLog(s.hist, e, t);
    TrackSelf(s.hist, e);
    LogIs(s.hist, s'.hist, e);
  }

  lemma StoreFacts(s: State, t: Tid)
    requires Inv(s) && t in s.threads && s.threads[t].pc.PutStore? && !s.threads[t].pc.isNew
    ensures var pc := s.threads[t].pc;
      && pc.b < s.npub && pc.b < |s.payloads| == |s.links| && s.links[pc.b].key == pc.k && pc.a in s.mem
          && s.mem[pc.a] == Pair(pc.k, pc.v)
      && s.payloads[pc.b].Some? && Holds(s.mem, s.payloads[pc.b].value, pc.k)
      && Track(s.hist, t) == Pending(Put(pc.k, pc.v))
  {
    hide Own, Chained, Represents, Legal, Track, Abs, Published, Has;
    Here(s, t);
    assert Holds(s.mem, s.payloads[s.threads[t].pc.b].value, s.links[s.threads[t].pc.b].key);
  }

  lemma SameShape(s: State, s': State)
    requires s'.links == s.links && s'.heads == s.heads && s'.npub == s.npub && s'.slot == s.slot && s.npub <= |s.links|
    ensures SameBelow(s.links, s'.links, s.npub)
    ensures Chained(s.links, s.heads, s.npub, s.slot) ==> Chained(s'.links, s'.heads, s'.npub, s'.slot)
  {
  }

  lemma StoreShape(s: State, s': State, t: Tid, pc: Pc, th: Thread, p: Addr)
    requires StepPutStore(s, s', t) && pc == s.threads[t].pc && pc.b < |s.payloads| && s.payloads[pc.b] == Some(p)
    requires th == Thread(PutDrop(pc.k, pc.v, p), None)
    ensures t in s.threads && s.threads[t].dying.None? && s'.threads == s.threads[t := th] == Move(s, t, th.pc)
    ensures s'.slot == s.slot && s'.links == s.links && s'.heads == s.heads && s'.npub == s.npub && s'.mem == s.mem
      && s'.lock == s.lock
    ensures s'.payloads == s.payloads[pc.b := Some(pc.a)] && s'.rc == s.rc[pc.a := 1]
    ensures s'.hist == s.hist + [Linearize(t, Put(pc.k, pc.v), Done(true))]
  {
  }

  lemma StoreKinds(pc: Pc, th: Thread, p: Addr)
    requires pc.PutStore? && !pc.isNew && th == Thread(PutDrop(pc.k, pc.v, p), None)
    ensures Critical(pc) && Critical(th.pc) && !Making(pc) && !Making(th.pc)
    ensures RefOf(pc).None? && RawOf(pc) == Some(pc.a) && RawOf(th.pc).None? && RefOf(th.pc) == Some(p)
  {
  }

  lemma PutStoreOldInv(s: State, s': State, t: Tid)
    requires Inv(s) && StepPutStore(s, s', t) && !s.threads[t].pc.isNew
    ensures Inv(s')
  {
    var pc := s.threads[t].pc;
    hide Inv;
    LockHeld(s, t);
    StoreFacts(s, t);
    Parts(s);
    hide *;
    PutStoreOldDone(s, s', t, pc, s.payloads[pc.b].value, Thread(PutDrop(pc.k, pc.v, s.payloads[pc.b].value), None));
  }

  lemma PutStoreOldDone(s: State, s': State, t: Tid, pc: Pc, p: Addr, th: Thread)
    requires Inv(s) && StepPutStore(s, s', t) && t in s.threads && pc == s.threads[t].pc && pc.PutStore? && !pc.isNew
    requires th == Thread(PutDrop(pc.k, pc.v, p), None) && s.lock == Some(t)
    requires pc.b < s.npub <= |s.links| == |s.payloads| && s.npub == |s.links| && s.links[pc.b].key == pc.k
    requires pc.a in s.mem && s.mem[pc.a] == Pair(pc.k, pc.v) && s.payloads[pc.b] == Some(p) && Holds(s.mem, p, pc.k)
    requires Track(s.hist, t) == Pending(Put(pc.k, pc.v))
    ensures Inv(s')
  {
    hide *;
    Parts(s);
    StoreKinds(pc, th, p);
    StoreShape(s, s', t, pc, th, p);
    OwnStore(s, s', t, pc.a, pc.b, th.pc);
    LockedStep(s, s', t, th);
    PutLogs(s, s', t, pc.k, pc.v);
    OverwriteShared(s, s', pc.b, pc.a, pc.k, pc.v);
    SameShape(s, s');
    DropLocal(s', t, pc.k, pc.v, p);
    AssembleLocked(s, s', t, th);
  }

  lemma DropLocal(s: State, t: Tid, k: Key, v: Value, p: Addr)
    requires Holds(s.mem, p, k) && Track(s.hist, t) == Linearized(Put(k, v), Done(true))
    ensures Local(s, PutDrop(k, v, p)) && Recorded(s, t, PutDrop(k, v, p))
  {
  }

  lemma UnlockLocal(s: State, t: Tid, k: Key, v: Value)
    requires Track(s.hist, t) == Linearized(Put(k, v), Done(true))
    ensures Local(s, PutUnlock(k, v, true)) && Recorded(s, t, PutUnlock(k, v, true))
  {
  }

  lemma PublishedSet(s: State, k: Key)
    requires s.npub < |s.links| && s.links[s.npub].key == k
    ensures forall k' :: Published(s.links, s.npub + 1, k') <==> Published(s.links, s.npub, k') || k' == k
  {
    forall k'
      ensures Published(s.links, s.npub + 1, k') <==> Published(s.links, s.npub, k') || k' == k
    {
      PublishedMore(s.links, s.npub, k');
    }
  }

  lemma OtherKeys(s: State, k: Key)
    requires s.npub <= |s.links| && !Published(s.links, s.npub, k)
    ensures forall i :: 0 <= i < s.npub ==> s.links[i].key != k
  {
  }

  // The publishing store: the map gains the key of the private bucket.
  lemma PublishShared(s: State, s': State, k: Key, v: Value)
    requires Keyed(s) && Represents(s) && Private(s, k, v, s.npub)
    requires s'.links == s.links && s'.npub == s.npub + 1
    requires s'.mem == s.mem && s'.payloads == s.payloads && Abs(s'.hist) == Abs(s.hist)[k := v]
    ensures Keyed(s') && Represents(s')
  {
    hide Abs, Published;
    PublishedSet(s, k);
    OtherKeys(s, k);
  }

  lemma PublishFacts(s: State, t: Tid)
    requires Inv(s) && t in s.threads && s.threads[t].pc.PutPublish?
    ensures var pc := s.threads[t].pc;
      && pc.b == s.npub < |s.links| && s.links[s.npub].key == pc.k && Private(s, pc.k, pc.v, s.npub)
          && !Published(s.links, s.npub, pc.k)
      && s.links[s.npub].next == (if s.slot(pc.k) in s.heads then Some(s.heads[s.slot(pc.k)]) else None)
      && Track(s.hist, t) == Pending(Put(pc.k, pc.v))
  {
    hide Own, Chained, Represents, Legal, Track, Abs, Published, Has;
    Here(s, t);
  }

  lemma PublishChains(s: State, s': State, k: Key)
    requires Chained(s.links, s.heads, s.npub, s.slot) && s.npub < |s.links| && s.links[s.npub].key == k
      && !Published(s.links, s.npub, k)
    requires s.links[s.npub].next == if s.slot(k) in s.heads then Some(s.heads[s.slot(k)]) else None
    requires s'.links == s.links && s'.heads == s.heads[s.slot(k) := s.npub] && s'.npub == s.npub + 1
      && s'.slot == s.slot
    ensures Chained(s'.links, s'.heads, s'.npub, s'.slot)
  {
    hide Chained, Published;
    PublishChained(s.links, s.heads, s.npub, s.slot);
  }

  lemma PublishShape(s: State, s': State, t: Tid, pc: Pc, th: Thread)
    requires StepPutPublish(s, s', t) && pc == s.threads[t].pc && pc.b == s.npub
      && th == Thread(PutUnlock(pc.k, pc.v, true), None)
    ensures t in s.threads && s.threads[t].dying.None? && s'.threads == s.threads[t := th] == Move(s, t, th.pc)
    ensures s'.slot == s.slot && s'.links == s.links && s'.heads == s.heads[s.slot(pc.k) := s.npub]
      && s'.npub == s.npub + 1
    ensures s'.mem == s.mem && s'.lock == s.lock && s'.payloads == s.payloads && s'.rc == s.rc
    ensures s'.hist == s.hist + [Linearize(t, Put(pc.k, pc.v), Done(true))]
  {
  }

  lemma PublishHere(s: State, s': State, t: Tid)
    requires StepPutPublish(s, s', t)
    ensures t in s.threads && s.threads[t].pc.PutPublish? && Critical(s.threads[t].pc) && Making(s.threads[t].pc)
  {
  }

  lemma PublishPcs(pc: Pc, after: Pc)
    requires pc.PutPublish? && after == PutUnlock(pc.k, pc.v, true)
    ensures Critical(pc) && Critical(after) && Making(pc) && !Making(after) && RefOf(pc) == RefOf(after)
      && RawOf(pc) == RawOf(after)
  {
  }

  lemma PutPublishInv(s: State, s': State, t: Tid)
    requires Inv(s) && StepPutPublish(s, s', t)
    ensures Inv(s')
  {
    hide *;
    PublishHere(s, s', t);
    LockHeld(s, t);
    PublishFacts(s, t);
    var pc := s.threads[t].pc;
    var th := Thread(PutUnlock(pc.k, pc.v, true), None);
    PublishShape(s, s', t, pc, th);
    PublishPcs(pc, th.pc);
    Parts(s);
    OwnMove(s, s', t, th.pc);
    LockedStep(s, s', t, th);
    PutLogs(s, s', t, pc.k, pc.v);
    PublishChains(s, s', pc.k);
    assert SameBelow(s.links, s'.links, s.npub);
    PublishShared(s, s', pc.k, pc.v);
    UnlockLocal(s', t, pc.k, pc.v);
    AssembleLocked(s, s', t, th);
  }
}
