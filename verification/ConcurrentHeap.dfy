// The concurrent table and the allocator together: the blocks that the steps of get and put take and give back are
// those of the first-fit heap, and the heap's used list is what the table accounts for.
module ConcurrentHeap {
  import opened Options
  import opened ConcurrentTable
  import opened ConcurrentOwnership
  import opened ConcurrentInvariant
  import opened ConcurrentReload
  import opened ConcurrentSteps
  import opened ConcurrentTheorems
  import opened ConcurrentProgress
  import Heap
  import HeapMemory

  // The pointers that are in use are those to the used blocks of the heap.
  ghost predicate Backed(s: State, h: Heap.State, hi: nat) { Heap.Ok(h, hi) && Mirrors(h.used, s.mem.Keys) }

  ghost predicate Mirrors(used: seq<nat>, pointers: set<Addr>) {
    && (forall b :: b in used ==> b + Heap.OVERHEAD in pointers)
    && (forall a <- pointers :: a >= Heap.OVERHEAD && a - Heap.OVERHEAD in used)
  }

  // The bytes of a pair.
  function PairSize(k: Key, v: Value): nat { |k| + 1 + |v| + 1 }

  // The block behind pointer a has n bytes.
  ghost predicate HasRoom(h: Heap.State, a: Addr, n: nat) { a >= 24 && a - 24 in h.cells && h.cells[a - 24] >= n }

  // Every pair fits into its block, with a NUL after the key and one after the value.
  ghost predicate Fitting(s: State, h: Heap.State) {
    forall a <- s.mem :: s.mem[a].Pair? ==> HasRoom(h, a, |s.mem[a].key| + |s.mem[a].value| + 2)
  }

  // What a step of thread t does to the heap: the allocation takes the first block that fits or fails if there is
  // none, the deleter releases the block, and no other step calls the allocator.
  ghost predicate HeapMoves(s: State, h: Heap.State, s': State, h': Heap.State, t: Tid) {
    && t in s.threads && (forall o <- h.free :: o in h.cells)
    && var pc := s.threads[t].pc;
      if s.threads[t].dying.Some? then
        var p := s.threads[t].dying.value;
        p >= Heap.OVERHEAD && p - Heap.OVERHEAD in h.cells && h' == Heap.Free(h, p - Heap.OVERHEAD)
      else if pc.PutAlloc? then
        var n := PairSize(pc.k, pc.v);
        if Heap.FirstFit(h.cells, h.free, n) < |h.free| then
          h' == Heap.Alloc(h, n) && h'.used != [] && StepPutAlloc(s, s', t, Some(h'.used[0] + Heap.OVERHEAD))
        else h' == h && StepPutAlloc(s, s', t, None)
      else h' == h
  }

  ghost predicate Joint(s: State, h: Heap.State, s': State, h': Heap.State, t: Tid) {
    Next(s, s', t) && HeapMoves(s, h, s', h', t)
  }

  // --- steps that leave the allocator alone ------------------------------------------------------

  lemma GetKeepsBlocks(s: State, s': State, t: Tid)
    requires StepGetHead(s, s', t) || StepGetLoad(s, s', t) || StepGetCompare(s, s', t)
      || StepGetReload(s, s', t) || StepGetRead(s, s', t) || StepGetReturn(s, s', t)
    ensures s'.mem == s.mem
  {
    hide Abs, Loadable, Droppable, AfterGet;
  }

  lemma SearchKeepsBlocks(s: State, s': State, t: Tid)
    requires StepPutLock(s, s', t) || StepPutHead(s, s', t) || StepPutLoad(s, s', t)
      || StepPutCompare(s, s', t) || StepPutNew(s, s', t) || StepPutStore(s, s', t)
    ensures s'.mem == s.mem
  {
    hide Abs, Loadable, Droppable, AfterPut;
  }

  lemma EndKeepsBlocks(s: State, s': State, t: Tid)
    requires StepPutDrop(s, s', t) || StepPutLink(s, s', t) || StepPutPublish(s, s', t) || StepPutUnlock(s, s', t)
      || StepPutReturn(s, s', t)
    ensures s'.mem == s.mem
  {
    hide Abs, Loadable, Droppable;
  }

  lemma WriteKeepsBlocks(s: State, s': State, t: Tid)
    requires Inv(s) && StepPutWrite(s, s', t)
    ensures s'.mem.Keys == s.mem.Keys
  {
    hide Inv;
    RawFacts(s, t, s.threads[t].pc.a);
  }

  lemma CallKeepsBlocks(s: State, s': State, t: Tid, op: Op)
    requires StepCall(s, s', t, op)
    ensures s'.mem == s.mem
  {
  }

  lemma AtAlloc(s: State, s': State, t: Tid, a: Option<Addr>)
    requires StepPutAlloc(s, s', t, a)
    ensures t in s.threads && s.threads[t].pc.PutAlloc? && s.threads[t].dying.None?
  {
  }

  lemma AtFree(s: State, s': State, t: Tid)
    requires StepFree(s, s', t)
    ensures t in s.threads && s.threads[t].dying.Some? && s.threads[t].dying.value in s.mem
      && s'.mem == s.mem - {s.threads[t].dying.value}
  {
  }

  lemma KeepsBlocks(s: State, s': State, t: Tid)
    requires Inv(s) && Next(s, s', t) && t in s.threads && s.threads[t].dying.None? && !s.threads[t].pc.PutAlloc?
    ensures s'.mem.Keys == s.mem.Keys
  {
    hide Inv, StepCall, StepGetHead, StepGetLoad, StepGetCompare, StepGetReload, StepGetRead, StepGetReturn,
      StepPutLock,
      StepPutAlloc, StepPutHead, StepPutLoad, StepPutCompare, StepPutNew, StepPutWrite, StepPutStore, StepPutDrop,
          StepPutLink,
      StepPutPublish, StepPutUnlock, StepPutReturn, StepFree;
    if op :| StepCall(s, s', t, op) { CallKeepsBlocks(s, s', t, op); }
    else if a :| StepPutAlloc(s, s', t, a) { AtAlloc(s, s', t, a); }
    else if StepFree(s, s', t) { AtFree(s, s', t); }
    else if StepPutWrite(s, s', t) { WriteKeepsBlocks(s, s', t); }
    else if StepGetHead(s, s', t) || StepGetLoad(s, s', t) || StepGetCompare(s, s', t)
      || StepGetReload(s, s', t) || StepGetRead(s, s', t) || StepGetReturn(s, s', t) { GetKeepsBlocks(s, s', t); }
    else if StepPutLock(s, s', t) || StepPutHead(s, s', t) || StepPutLoad(s, s', t)
      || StepPutCompare(s, s', t) || StepPutNew(s, s', t) || StepPutStore(s, s', t) { SearchKeepsBlocks(s, s', t); }
    else { EndKeepsBlocks(s, s', t); }
  }

  // A thread with a block to free does nothing else.
  lemma DyingFrees(s: State, s': State, t: Tid)
    requires Next(s, s', t) && t in s.threads && s.threads[t].dying.Some?
    ensures StepFree(s, s', t)
  {
    hide Abs, Loadable, Droppable, AfterGet, AfterPut;
  }

  // --- one step ----------------------------------------------------------------------------------

  lemma FreeFacts(h: Heap.State, b: nat, hi: nat)
    requires Heap.Ok(h, hi) && b in h.used && forall o <- h.free :: o in h.cells
    ensures b in h.cells && Heap.Ok(Heap.Free(h, b), hi)
    ensures forall o :: o in Heap.Free(h, b).used <==> o in h.used && o != b
  {
    Heap.FreeOk(h, b, hi);
  }

  lemma AllocFacts(h: Heap.State, n: nat, hi: nat) returns (b: nat)
    requires Heap.Ok(h, hi) && (forall o <- h.free :: o in h.cells) && Heap.FirstFit(h.cells, h.free, n) < |h.free|
    ensures Heap.Ok(Heap.Alloc(h, n), hi) && Heap.Alloc(h, n).used == [b] + h.used && b !in h.used
  {
    HeapMemory.AllocFacts(h, n, hi);
    b := h.free[Heap.FirstFit(h.cells, h.free, n)];
    assert b in h.free;
  }

  lemma MirrorsLess(used: seq<nat>, less: seq<nat>, pointers: set<Addr>, p: Addr)
    requires Mirrors(used, pointers) && p in pointers && forall o :: o in less <==> o in used && o != p - Heap.OVERHEAD
    ensures Mirrors(less, pointers - {p})
  {
    forall a | a in pointers - {p}
      ensures a >= Heap.OVERHEAD && a - Heap.OVERHEAD in less
    {
      assert a - Heap.OVERHEAD in used;
    }
    forall b | b in less
      ensures b in used && b + Heap.OVERHEAD in pointers - {p}
    {
      assert b in used && b != p - Heap.OVERHEAD;
    }
  }

  lemma MirrorsMore(used: seq<nat>, b: nat, pointers: set<Addr>)
    requires Mirrors(used, pointers) && b !in used
    ensures b + Heap.OVERHEAD !in pointers && Mirrors([b] + used, pointers + {b + Heap.OVERHEAD})
  {
    assert ([b] + used)[0] == b;
    assert forall c :: c in [b] + used <==> c == b || c in used;
  }

  lemma FreeBacked(s: State, h: Heap.State, mem: map<Addr, Content>, p: Addr, hi: nat)
    requires Backed(s, h, hi) && p in s.mem && mem == s.mem - {p} && forall o <- h.free :: o in h.cells
    ensures p >= Heap.OVERHEAD && p - Heap.OVERHEAD in h.cells && p - Heap.OVERHEAD in h.used
    ensures Backed(s.(mem := mem), Heap.Free(h, p - Heap.OVERHEAD), hi)
  {
    hide Heap.Ok, Heap.Free, Mirrors;
    MirrorsAt(h.used, s.mem.Keys, p);
    FreeFacts(h, p - Heap.OVERHEAD, hi);
    MirrorsLess(h.used, Heap.Free(h, p - Heap.OVERHEAD).used, s.mem.Keys, p);
    assert mem.Keys == s.mem.Keys - {p};
  }

  lemma MirrorsAt(used: seq<nat>, pointers: set<Addr>, p: Addr)
    requires Mirrors(used, pointers) && p in pointers
    ensures p >= Heap.OVERHEAD && p - Heap.OVERHEAD in used
  {
  }

  lemma AllocBacked(s: State, h: Heap.State, n: nat, content: Content, hi: nat)
    requires Backed(s, h, hi) && (forall o <- h.free :: o in h.cells) && Heap.FirstFit(h.cells, h.free, n) < |h.free|
    ensures var g := Heap.Alloc(h, n);
      && g.used != [] && g.used[0] + Heap.OVERHEAD !in s.mem
      && Backed(s.(mem := s.mem[g.used[0] + Heap.OVERHEAD := content]), g, hi)
  {
    hide Heap.Ok, Heap.Alloc, Heap.FirstFit, Mirrors;
    var b := AllocFacts(h, n, hi);
    MirrorsMore(h.used, b, s.mem.Keys);
    var a := b + Heap.OVERHEAD;
    assert s.mem[a := content].Keys == s.mem.Keys + {a};
    assert Heap.Alloc(h, n).used[0] == b;
  }

  lemma SameBacked(s: State, s': State, h: Heap.State, hi: nat)
    requires Backed(s, h, hi) && s'.mem.Keys == s.mem.Keys
    ensures Backed(s', h, hi)
  {
    hide Heap.Ok, Mirrors;
  }

  lemma FreeInCells(s: State, h: Heap.State, hi: nat)
    requires Backed(s, h, hi)
    ensures forall o <- h.free :: o in h.cells
  {
    hide Mirrors, Heap.Tiled, Heap.Coalesced, Heap.Ascending, Heap.Distinct;
  }

  lemma AllocMem(s: State, s': State, t: Tid, a: Option<Addr>)
    requires StepPutAlloc(s, s', t, a)
    ensures s'.mem == if a.Some? then s.mem[a.value := Raw] else s.mem
  {
  }

  lemma JointKeeps(s: State, h: Heap.State, s': State, h': Heap.State, t: Tid, hi: nat)
    requires Inv(s) && Backed(s, h, hi) && Joint(s, h, s', h', t)
    ensures Backed(s', h', hi)
  {
    hide Inv, Backed, Next, StepPutAlloc, Heap.Alloc, Heap.Free, Heap.FirstFit;
    var pc := s.threads[t].pc;
    if s.threads[t].dying.Some? {
      DyingFrees(s, s', t);
      AtFree(s, s', t);
      FreeBacked(s, h, s'.mem, s.threads[t].dying.value, hi);
      SameBacked(s.(mem := s'.mem), s', h', hi);
    } else if pc.PutAlloc? {
      var n := PairSize(pc.k, pc.v);
      if Heap.FirstFit(h.cells, h.free, n) < |h.free| {
        AllocBacked(s, h, n, Raw, hi);
        AllocMem(s, s', t, Some(h'.used[0] + Heap.OVERHEAD));
        SameBacked(s.(mem := s'.mem), s', h', hi);
      } else {
        AllocMem(s, s', t, None);
        SameBacked(s, s', h, hi);
      }
    } else {
      KeepsBlocks(s, s', t);
      SameBacked(s, s', h, hi);
    }
  }

  // --- runs --------------------------------------------------------------------------------------

  ghost predicate JointRun(states: seq<State>, heaps: seq<Heap.State>, actors: seq<Tid>, hi: nat) {
    && |states| == |heaps| == |actors| + 1
    && Init(states[0]) && Backed(states[0], heaps[0], hi) && Fitting(states[0], heaps[0])
    && forall i :: 0 <= i < |actors| ==> Joint(states[i], heaps[i], states[i + 1], heaps[i + 1], actors[i])
  }

  lemma JointIsRun(states: seq<State>, heaps: seq<Heap.State>, actors: seq<Tid>, hi: nat)
    requires JointRun(states, heaps, actors, hi)
    ensures Run(states, actors)
  {
    hide Init, Backed, Next, HeapMoves;
    forall i | 0 <= i < |actors|
      ensures Next(states[i], states[i + 1], actors[i])
    {
      assert Joint(states[i], heaps[i], states[i + 1], heaps[i + 1], actors[i]);
    }
  }

  // In every run with the first-fit allocator the heap stays well formed, and its used blocks are the blocks in use.
  lemma {:induction false} StaysBacked(states: seq<State>, heaps: seq<Heap.State>, actors: seq<Tid>, hi: nat, i: nat)
    requires JointRun(states, heaps, actors, hi) && i < |states|
    ensures Backed(states[i], heaps[i], hi)
  {
    hide Init, Backed, Next, HeapMoves;
    if i > 0 {
      StaysBacked(states, heaps, actors, hi, i - 1);
      JointIsRun(states, heaps, actors, hi);
      RunInv(states, actors, i - 1);
      assert Joint(states[i - 1], heaps[i - 1], states[i], heaps[i], actors[i - 1]);
      JointKeeps(states[i - 1], heaps[i - 1], states[i], heaps[i], actors[i - 1], hi);
    }
  }

  // So a block is on the used list of the heap if and only if somebody owns it.
  lemma ListedIffOwned(states: seq<State>, heaps: seq<Heap.State>, actors: seq<Tid>, hi: nat, n: nat, b: nat)
    requires JointRun(states, heaps, actors, hi) && n < |states|
    ensures var s, a := states[n], b + Heap.OVERHEAD;
      b in heaps[n].used <==>
        || (exists i :: 0 <= i < |s.payloads| && s.payloads[i] == Some(a))
        || (exists t :: t in s.threads && RefOf(s.threads[t].pc) == Some(a))
        || (exists t :: t in s.threads && RawOf(s.threads[t].pc) == Some(a))
        || (exists t :: t in s.threads && s.threads[t].dying == Some(a))
  {
    hide JointRun, Run, RefOf, RawOf, Heap.Ok;
    JointIsRun(states, heaps, actors, hi);
    JointSizes(states, heaps, actors, hi);
    StaysBacked(states, heaps, actors, hi, n);
    UsedIffOwned(states, actors, n, b + Heap.OVERHEAD);
    assert b in heaps[n].used <==> b + Heap.OVERHEAD in states[n].mem;
  }

  lemma JointSizes(states: seq<State>, heaps: seq<Heap.State>, actors: seq<Tid>, hi: nat)
    requires JointRun(states, heaps, actors, hi)
    ensures |states| == |heaps| == |actors| + 1
  {
    hide Init, Backed, Joint;
  }

  // --- every pair fits into its block ------------------------------------------------------------

  // The pair that thread t is about to write would fit, too.
  ghost predicate RoomAhead(s: State, h: Heap.State) {
    forall t <- s.threads :: RawOf(s.threads[t].pc).Some? ==>
      HasRoom(h, RawOf(s.threads[t].pc).value, |s.threads[t].pc.k| + |s.threads[t].pc.v| + 2)
  }

  // Same block, same key and value.
  ghost predicate SameTask(p: Pc, q: Pc) { RawOf(p).Some? && RawOf(q) == RawOf(p) && q.k == p.k && q.v == p.v }

  // A pair is written only by a put, into the block it has taken.
  ghost predicate PairsFrom(s: State, s': State, t: Tid) {
    && t in s.threads
    && forall a <- s'.mem :: s'.mem[a].Pair? ==>
        || (a in s.mem && s.mem[a] == s'.mem[a])
        || (RawOf(s.threads[t].pc) == Some(a) && s'.mem[a] == Pair(s.threads[t].pc.k, s.threads[t].pc.v))
  }

  // A put keeps its block; only an allocation gives it one.
  ghost predicate TasksFrom(s: State, s': State, t: Tid) {
    && t in s.threads
    && forall u <- s'.threads :: RawOf(s'.threads[u].pc).Some? ==>
        && u in s.threads
        && (SameTask(s.threads[u].pc, s'.threads[u].pc) || (u == t && Takes(s, s', t, RawOf(s'.threads[u].pc).value)))
  }

  // The allocation of thread t has returned a.
  ghost predicate Takes(s: State, s': State, t: Tid, a: Addr) {
    && t in s.threads && t in s'.threads && s.threads[t].pc.PutAlloc? && s.threads[t].dying.None?
    && RawOf(s'.threads[t].pc) == Some(a) && s'.threads[t].pc.k == s.threads[t].pc.k
    && s'.threads[t].pc.v == s.threads[t].pc.v
  }

  lemma GetHeadTasks(s: State, s': State, t: Tid)
    requires StepGetHead(s, s', t)
    ensures PairsFrom(s, s', t) && TasksFrom(s, s', t)
  {
    hide Abs;
  }

  lemma GetLoadTasks(s: State, s': State, t: Tid)
    requires StepGetLoad(s, s', t)
    ensures PairsFrom(s, s', t) && TasksFrom(s, s', t)
  {
    hide Loadable;
  }

  lemma GetFoundTasks(s: State, s': State, t: Tid)
    requires StepGetCompare(s, s', t) || StepGetReload(s, s', t)
    ensures PairsFrom(s, s', t) && TasksFrom(s, s', t)
  {
    hide Abs, Loadable, Droppable;
  }

  lemma GetEndTasks(s: State, s': State, t: Tid)
    requires StepGetRead(s, s', t) || StepGetReturn(s, s', t)
    ensures PairsFrom(s, s', t) && TasksFrom(s, s', t)
  {
    hide Abs, Loadable, Droppable;
  }

  lemma SearchTasks(s: State, s': State, t: Tid)
    requires StepPutLock(s, s', t) || StepPutHead(s, s', t) || StepPutLoad(s, s', t)
    ensures PairsFrom(s, s', t) && TasksFrom(s, s', t)
  {
    hide Abs, Loadable, Droppable;
  }

  lemma FoundTasks(s: State, s': State, t: Tid)
    requires StepPutCompare(s, s', t) || StepPutNew(s, s', t) || StepPutStore(s, s', t)
    ensures PairsFrom(s, s', t) && TasksFrom(s, s', t)
  {
    hide Abs, Loadable, Droppable;
  }

  lemma EndTasks(s: State, s': State, t: Tid)
    requires StepPutDrop(s, s', t) || StepPutLink(s, s', t) || StepPutPublish(s, s', t)
    ensures PairsFrom(s, s', t) && TasksFrom(s, s', t)
  {
    hide Abs, Loadable, Droppable;
  }

  lemma ReturnTasks(s: State, s': State, t: Tid)
    requires StepPutUnlock(s, s', t) || StepPutReturn(s, s', t) || StepFree(s, s', t)
    ensures PairsFrom(s, s', t) && TasksFrom(s, s', t)
  {
    hide Abs, Loadable, Droppable;
  }

  lemma CallTasks(s: State, s': State, t: Tid, op: Op)
    requires StepCall(s, s', t, op)
    ensures PairsFrom(s, s', t) && TasksFrom(s, s', t)
  {
  }

  lemma AllocTasks(s: State, s': State, t: Tid, a: Option<Addr>)
    requires StepPutAlloc(s, s', t, a)
    ensures PairsFrom(s, s', t) && TasksFrom(s, s', t)
  {
  }

  lemma WriteTasks(s: State, s': State, t: Tid)
    requires StepPutWrite(s, s', t)
    ensures PairsFrom(s, s', t) && TasksFrom(s, s', t)
  {
  }

  lemma StepTasks(s: State, s': State, t: Tid)
    requires Next(s, s', t)
    ensures PairsFrom(s, s', t) && TasksFrom(s, s', t)
  {
    hide StepCall, StepGetHead, StepGetLoad, StepGetCompare, StepGetReload, StepGetRead, StepGetReturn, StepPutLock,
      StepPutAlloc, StepPutHead, StepPutLoad, StepPutCompare, StepPutNew, StepPutWrite, StepPutStore, StepPutDrop,
      StepPutLink, StepPutPublish, StepPutUnlock, StepPutReturn, StepFree, PairsFrom, TasksFrom;
    if StepGetHead(s, s', t) { GetHeadTasks(s, s', t); }
    else if StepGetLoad(s, s', t) { GetLoadTasks(s, s', t); }
    else if StepGetCompare(s, s', t) || StepGetReload(s, s', t) { GetFoundTasks(s, s', t); }
    else if StepGetRead(s, s', t) || StepGetReturn(s, s', t) { GetEndTasks(s, s', t); }
    else if StepPutLock(s, s', t) || StepPutHead(s, s', t) || StepPutLoad(s, s', t) { SearchTasks(s, s', t); }
    else if StepPutCompare(s, s', t) || StepPutNew(s, s', t) || StepPutStore(s, s', t) { FoundTasks(s, s', t); }
    else if StepPutDrop(s, s', t) || StepPutLink(s, s', t) || StepPutPublish(s, s', t) { EndTasks(s, s', t); }
    else if StepPutUnlock(s, s', t) || StepPutReturn(s, s', t) || StepFree(s, s', t) { ReturnTasks(s, s', t); }
    else if op :| StepCall(s, s', t, op) { CallTasks(s, s', t, op); }
    else if a :| StepPutAlloc(s, s', t, a) { AllocTasks(s, s', t, a); }
    else { WriteTasks(s, s', t); }
  }

  // Blocks that stay in use keep their sizes.
  ghost predicate SizesKept(h: Heap.State, h': Heap.State) {
    forall b :: b in h.used && b in h'.used ==> b in h.cells && b in h'.cells && h'.cells[b] == h.cells[b]
  }

  lemma FreeKeepsSizes(h: Heap.State, b: nat, hi: nat)
    requires Heap.Ok(h, hi) && b in h.used && b in h.cells && forall o <- h.free :: o in h.cells
    ensures SizesKept(h, Heap.Free(h, b))
  {
    hide Heap.Tiled, Heap.Coalesced, Heap.Ascending, Heap.Distinct, Heap.Free;
    Heap.FreeOk(h, b, hi);
    assert forall o :: o in Heap.Free(h, b).used ==> o in Heap.Free(h, b).cells;
  }

  lemma AllocKeepsSizes(h: Heap.State, n: nat, hi: nat)
    requires Heap.Ok(h, hi) && (forall o <- h.free :: o in h.cells) && Heap.FirstFit(h.cells, h.free, n) < |h.free|
    ensures var g := Heap.Alloc(h, n); SizesKept(h, g) && g.used != [] && HasRoom(g, g.used[0] + Heap.OVERHEAD, n)
  {
    hide Heap.Tiled, Heap.Coalesced, Heap.Ascending, Heap.Distinct, Heap.Alloc, Heap.FirstFit;
    Heap.AllocOk(h, n, hi);
    Heap.AllocTakes(h, n, hi);
    assert forall o :: o in Heap.Alloc(h, n).used ==> o in Heap.Alloc(h, n).cells;
    assert Heap.Alloc(h, n).used[0] in Heap.Alloc(h, n).used;
  }

  // The block that an allocation returns.
  lemma TakenIs(s: State, s': State, t: Tid, x: Addr, a: Addr)
    requires StepPutAlloc(s, s', t, Some(x)) && Takes(s, s', t, a)
    ensures a == x
  {
  }

  lemma NoneTaken(s: State, s': State, t: Tid, a: Addr)
    requires Takes(s, s', t, a)
    ensures !StepPutAlloc(s, s', t, None)
  {
  }

  lemma HeapKeepsSizes(s: State, h: Heap.State, s': State, h': Heap.State, t: Tid, hi: nat)
    requires Backed(s, h, hi) && HeapMoves(s, h, s', h', t)
    requires s.threads[t].dying.Some? ==> s.threads[t].dying.value in s.mem
    ensures SizesKept(h, h')
  {
    hide Heap.Tiled, Heap.Coalesced, Heap.Ascending, Heap.Distinct, Heap.Alloc, Heap.Free, Heap.FirstFit, SizesKept,
      HasRoom, StepPutAlloc;
    var pc := s.threads[t].pc;
    if s.threads[t].dying.Some? {
      FreeKeepsSizes(h, s.threads[t].dying.value - Heap.OVERHEAD, hi);
    } else if pc.PutAlloc? && Heap.FirstFit(h.cells, h.free, PairSize(pc.k, pc.v)) < |h.free| {
      AllocKeepsSizes(h, PairSize(pc.k, pc.v), hi);
    } else {
      SameSizes(h);
    }
  }

  lemma SameSizes(h: Heap.State)
    requires (forall b <- h.used :: b in h.cells)
    ensures SizesKept(h, h)
  {
  }

  lemma TakenHasRoom(s: State, h: Heap.State, s': State, h': Heap.State, t: Tid, hi: nat, a: Addr)
    requires Backed(s, h, hi) && HeapMoves(s, h, s', h', t) && Takes(s, s', t, a)
    ensures HasRoom(h', a, |s.threads[t].pc.k| + |s.threads[t].pc.v| + 2)
  {
    hide Heap.Ok, Heap.Alloc, Heap.Free, Heap.FirstFit, SizesKept, HasRoom, StepPutAlloc;
    var pc := s.threads[t].pc;
    var n := PairSize(pc.k, pc.v);
    NoneTaken(s, s', t, a);
    AllocKeepsSizes(h, n, hi);
    TakenIs(s, s', t, h'.used[0] + Heap.OVERHEAD, a);
  }

  lemma KeptRoom(s: State, h: Heap.State, s': State, h': Heap.State, hi: nat, a: Addr, n: nat)
    requires Backed(s, h, hi) && Backed(s', h', hi) && a in s.mem && a in s'.mem && SizesKept(h, h') && HasRoom(h, a, n)
    ensures HasRoom(h', a, n)
  {
    hide Heap.Ok;
    MirrorsAt(h.used, s.mem.Keys, a);
    MirrorsAt(h'.used, s'.mem.Keys, a);
  }

  lemma RawInMem(s: State, u: Tid)
    requires Inv(s) && u in s.threads && RawOf(s.threads[u].pc).Some?
    ensures RawOf(s.threads[u].pc).value in s.mem
  {
    hide Inv;
    RawFacts(s, u, RawOf(s.threads[u].pc).value);
  }

  lemma FittingKept(s: State, h: Heap.State, s': State, h': Heap.State, t: Tid, hi: nat)
    requires Inv(s) && Backed(s, h, hi) && Backed(s', h', hi) && PairsFrom(s, s', t) && SizesKept(h, h')
    requires Fitting(s, h) && RoomAhead(s, h)
    ensures Fitting(s', h')
  {
    hide Inv, Backed, SizesKept, HasRoom, RawOf;
    if RawOf(s.threads[t].pc).Some? { RawInMem(s, t); }
    forall a | a in s'.mem && s'.mem[a].Pair?
      ensures HasRoom(h', a, |s'.mem[a].key| + |s'.mem[a].value| + 2)
    {
      KeptRoom(s, h, s', h', hi, a, |s'.mem[a].key| + |s'.mem[a].value| + 2);
    }
  }

  lemma AheadKept(s: State, h: Heap.State, s': State, h': Heap.State, t: Tid, hi: nat)
    requires Inv(s) && Backed(s, h, hi) && Inv(s') && Backed(s', h', hi) && TasksFrom(s, s', t) && SizesKept(h, h')
    requires RoomAhead(s, h) && forall a :: Takes(s, s', t, a) ==>
      HasRoom(h', a, |s.threads[t].pc.k| + |s.threads[t].pc.v| + 2)
    ensures RoomAhead(s', h')
  {
    hide Inv, Backed, SizesKept, HasRoom;
    forall u | u in s'.threads && RawOf(s'.threads[u].pc).Some?
      ensures HasRoom(h', RawOf(s'.threads[u].pc).value, |s'.threads[u].pc.k| + |s'.threads[u].pc.v| + 2)
    {
      RawInMem(s', u);
      var p, q := s.threads[u].pc, s'.threads[u].pc;
      if SameTask(p, q) {
        RawInMem(s, u);
        KeptRoom(s, h, s', h', hi, RawOf(q).value, |q.k| + |q.v| + 2);
      }
    }
  }

  lemma RoomKept(s: State, h: Heap.State, s': State, h': Heap.State, t: Tid, hi: nat)
    requires Inv(s) && Backed(s, h, hi) && Inv(s') && Backed(s', h', hi) && Joint(s, h, s', h', t)
    requires Fitting(s, h) && RoomAhead(s, h)
    ensures Fitting(s', h') && RoomAhead(s', h')
  {
    hide Inv, Backed, Next, Heap.Alloc, Heap.Free, Heap.FirstFit, StepPutAlloc, Fitting, RoomAhead, PairsFrom,
      TasksFrom, SizesKept, HasRoom, Takes;
    StepTasks(s, s', t);
    if s.threads[t].dying.Some? {
      DyingFrees(s, s', t);
      AtFree(s, s', t);
    }
    HeapKeepsSizes(s, h, s', h', t, hi);
    AllTakenHaveRoom(s, h, s', h', t, hi);
    FittingKept(s, h, s', h', t, hi);
    AheadKept(s, h, s', h', t, hi);
  }

  lemma AllTakenHaveRoom(s: State, h: Heap.State, s': State, h': Heap.State, t: Tid, hi: nat)
    requires Backed(s, h, hi) && HeapMoves(s, h, s', h', t)
    ensures forall a :: Takes(s, s', t, a) ==> HasRoom(h', a, |s.threads[t].pc.k| + |s.threads[t].pc.v| + 2)
  {
    hide Backed, HeapMoves, HasRoom, RawOf;
    forall a | Takes(s, s', t, a)
      ensures HasRoom(h', a, |s.threads[t].pc.k| + |s.threads[t].pc.v| + 2)
    {
      TakenHasRoom(s, h, s', h', t, hi, a);
    }
  }

  lemma StillRoom(s: State, h: Heap.State)
    requires Still(s)
    ensures RoomAhead(s, h)
  {
  }

  lemma {:induction false} RunFitting(states: seq<State>, heaps: seq<Heap.State>, actors: seq<Tid>, hi: nat, i: nat)
    requires JointRun(states, heaps, actors, hi) && i < |states|
    ensures Fitting(states[i], heaps[i]) && RoomAhead(states[i], heaps[i])
  {
    hide Backed, Next, HeapMoves, Fitting, RoomAhead, Inv;
    if i > 0 {
      RunFitting(states, heaps, actors, hi, i - 1);
      JointIsRun(states, heaps, actors, hi);
      RunInv(states, actors, i - 1);
      RunInv(states, actors, i);
      StaysBacked(states, heaps, actors, hi, i - 1);
      StaysBacked(states, heaps, actors, hi, i);
      assert Joint(states[i - 1], heaps[i - 1], states[i], heaps[i], actors[i - 1]);
      RoomKept(states[i - 1], heaps[i - 1], states[i], heaps[i], actors[i - 1], hi);
    } else {
      StillRoom(states[0], heaps[0]);
    }
  }

  // So no put writes beyond its block: the block of a pair has the bytes of key and value and of two NULs.
  lemma PairsFit(states: seq<State>, heaps: seq<Heap.State>, actors: seq<Tid>, hi: nat, n: nat, a: Addr, k: Key,
      v: Value)
    requires JointRun(states, heaps, actors, hi) && n < |states| && a in states[n].mem && states[n].mem[a] == Pair(k, v)
    ensures a >= 24 && a - 24 in heaps[n].cells && heaps[n].cells[a - 24] >= |k| + |v| + 2
  {
    hide JointRun;
    JointSizes(states, heaps, actors, hi);
    RunFitting(states, heaps, actors, hi, n);
  }

  // --- when a put fails --------------------------------------------------------------------------

  ghost predicate NoFailure(s: State, s': State) {
    s'.hist == s.hist || (exists e: Event :: s'.hist == s.hist + [e] && !(e.Linearize? && e.op.Put? && e.res == Done(false)))
  }

  lemma GetLogs(s: State, s': State, t: Tid)
    requires StepGetHead(s, s', t) || StepGetLoad(s, s', t) || StepGetCompare(s, s', t) || StepGetReload(s, s', t)
    ensures NoFailure(s, s')
  {
    hide Abs, Loadable, Droppable, AfterGet, AfterPut;
  }

  lemma AnswerLogs(s: State, s': State, t: Tid)
    requires StepGetRead(s, s', t) || StepGetReturn(s, s', t) || StepPutReturn(s, s', t)
    ensures NoFailure(s, s')
  {
    hide Abs, Loadable, Droppable, AfterGet, AfterPut;
  }

  lemma SearchLogs(s: State, s': State, t: Tid)
    requires StepPutLock(s, s', t) || StepPutHead(s, s', t) || StepPutLoad(s, s', t) || StepPutCompare(s, s', t)
      || StepPutNew(s, s', t)
    ensures NoFailure(s, s')
  {
    hide Abs, Loadable, Droppable, AfterGet, AfterPut;
  }

  lemma StoreLogs(s: State, s': State, t: Tid)
    requires StepPutWrite(s, s', t) || StepPutStore(s, s', t) || StepPutDrop(s, s', t)
    ensures NoFailure(s, s')
  {
    hide Abs, Loadable, Droppable, AfterGet, AfterPut;
  }

  lemma EndLogs(s: State, s': State, t: Tid)
    requires StepPutLink(s, s', t) || StepPutPublish(s, s', t) || StepPutUnlock(s, s', t) || StepFree(s, s', t)
    ensures NoFailure(s, s')
  {
    hide Abs, Loadable, Droppable, AfterGet, AfterPut;
  }

  lemma CallLogs(s: State, s': State, t: Tid, op: Op)
    requires StepCall(s, s', t, op)
    ensures NoFailure(s, s')
  {
  }

  lemma StepLogs(s: State, s': State, t: Tid)
    requires Next(s, s', t) && !exists a :: StepPutAlloc(s, s', t, a)
    ensures NoFailure(s, s')
  {
    hide StepCall, StepGetHead, StepGetLoad, StepGetCompare, StepGetReload, StepGetRead, StepGetReturn, StepPutLock,
      StepPutAlloc, StepPutHead, StepPutLoad, StepPutCompare, StepPutNew, StepPutWrite, StepPutStore, StepPutDrop,
      StepPutLink, StepPutPublish, StepPutUnlock, StepPutReturn, StepFree, NoFailure;
    if op :| StepCall(s, s', t, op) { CallLogs(s, s', t, op); }
    else if StepGetHead(s, s', t) || StepGetLoad(s, s', t) || StepGetCompare(s, s', t)
        || StepGetReload(s, s', t) { GetLogs(s, s', t); }
    else if StepGetRead(s, s', t) || StepGetReturn(s, s', t) || StepPutReturn(s, s', t) { AnswerLogs(s, s', t); }
    else if StepPutLock(s, s', t) || StepPutHead(s, s', t) || StepPutLoad(s, s', t) || StepPutCompare(s, s', t)
        || StepPutNew(s, s', t) { SearchLogs(s, s', t); }
    else if StepPutWrite(s, s', t) || StepPutStore(s, s', t) || StepPutDrop(s, s', t) { StoreLogs(s, s', t); }
    else { EndLogs(s, s', t); }
  }

  lemma NotThisEvent(s: State, s': State, t: Tid, k: Key, v: Value)
    requires NoFailure(s, s')
    ensures s'.hist != s.hist + [Linearize(t, Put(k, v), Done(false))]
  {
    if e: Event :| s'.hist == s.hist + [e] && !(e.Linearize? && e.op.Put? && e.res == Done(false)) {
      assert (s.hist + [e])[|s.hist|] == e;
    }
  }

  // The allocation of thread t, with block a.
  lemma AllocLogs(s: State, s': State, t: Tid, a: Option<Addr>, u: Tid, k: Key, v: Value)
    requires StepPutAlloc(s, s', t, a)
    ensures s'.hist == s.hist + [Linearize(u, Put(k, v), Done(false))] <==>
      a == None && u == t && s.threads[t] == Thread(PutAlloc(k, v), None)
  {
    var pc := s.threads[t].pc;
    var e, f := Linearize(u, Put(k, v), Done(false)), Linearize(t, Put(pc.k, pc.v), Done(false));
    assert (s.hist + [e])[|s.hist|] == e && (s.hist + [f])[|s.hist|] == f;
  }

  lemma NoneFits(h: Heap.State, n: nat)
    requires forall o <- h.free :: o in h.cells
    ensures Heap.FirstFit(h.cells, h.free, n) < |h.free| <==> !(forall o <- h.free :: o in h.cells && h.cells[o] < n)
  {
  }

  // A step logs a failing put exactly if it is the allocation of that put and no free block has room for
  // its pair.
  lemma FailsWhen(states: seq<State>, heaps: seq<Heap.State>, actors: seq<Tid>, hi: nat, n: nat, t: Tid, k: Key,
      v: Value)
    requires JointRun(states, heaps, actors, hi) && n < |actors|
    ensures var s, s', h := states[n], states[n + 1], heaps[n];
      s'.hist == s.hist + [Linearize(t, Put(k, v), Done(false))] <==>
        && t == actors[n] && t in s.threads && s.threads[t] == Thread(PutAlloc(k, v), None)
        && forall o <- h.free :: o in h.cells && h.cells[o] < |k| + |v| + 2
  {
    hide Init, Backed, Fitting, Next, Heap.FirstFit, Heap.Alloc, Heap.Free, StepPutAlloc, NoFailure;
    var s, s', h, u := states[n], states[n + 1], heaps[n], actors[n];
    assert Joint(s, h, s', heaps[n + 1], u);
    NoneFits(h, |k| + |v| + 2);
    if a :| StepPutAlloc(s, s', u, a) {
      AtAlloc(s, s', u, a);
      AllocLogs(s, s', u, a, t, k, v);
      var pc := s.threads[u].pc;
      if Heap.FirstFit(h.cells, h.free, PairSize(pc.k, pc.v)) < |h.free| {
        AllocLogs(s, s', u, Some(heaps[n + 1].used[0] + Heap.OVERHEAD), t, k, v);
      } else {
        AllocLogs(s, s', u, None, t, k, v);
      }
    } else {
      StepLogs(s, s', u);
      NotThisEvent(s, s', t, k, v);
    }
  }

  // --- the allocator never makes a thread wait ---------------------------------------------------

  ghost predicate CanStepJointly(s: State, h: Heap.State, t: Tid) { exists s', h' :: Joint(s, h, s', h', t) }

  lemma AllocJoins(s: State, h: Heap.State, t: Tid, hi: nat)
    requires Backed(s, h, hi) && Ready(s, t) && s.threads[t].pc.PutAlloc?
    ensures CanStepJointly(s, h, t)
  {
    hide Next, Abs, Heap.Alloc, Heap.FirstFit, Backed;
    FreeInCells(s, h, hi);
    var pc := s.threads[t].pc;
    var n := PairSize(pc.k, pc.v);
    var a: Option<Addr>, s', h' := None, Log(s.(threads := Move(s, t, PutUnlock(pc.k, pc.v, false))),
      Linearize(t, Put(pc.k, pc.v), Done(false))), h;
    if Heap.FirstFit(h.cells, h.free, n) < |h.free| {
      AllocBacked(s, h, n, Raw, hi);
      h' := Heap.Alloc(h, n);
      var x := h'.used[0] + Heap.OVERHEAD;
      a, s' := Some(x), s.(mem := s.mem[x := Raw], threads := Move(s, t, PutHead(pc.k, pc.v, x)));
    }
    assert StepPutAlloc(s, s', t, a);
    AllocIsNext(s, s', t, a);
    assert Joint(s, h, s', h', t);
  }

  lemma AllocIsNext(s: State, s': State, t: Tid, a: Option<Addr>)
    requires StepPutAlloc(s, s', t, a)
    ensures Next(s, s', t)
  {
    hide StepPutAlloc;
  }

  lemma SomeStep(s: State, t: Tid) returns (s': State)
    requires CanStep(s, t)
    ensures Next(s, s', t)
  {
    hide Next;
    s' :| Next(s, s', t);
  }

  lemma FreeJoins(s: State, h: Heap.State, t: Tid, hi: nat)
    requires Backed(s, h, hi) && Safe(s, t) && s.threads[t].dying.Some?
    ensures CanStepJointly(s, h, t)
  {
    hide Next, Heap.Free, Backed, CanStep;
    FreeInCells(s, h, hi);
    FreeMoves(s, t);
    var s' := SomeStep(s, t);
    var p := s.threads[t].dying.value;
    FreeBacked(s, h, s.mem - {p}, p, hi);
    assert Joint(s, h, s', Heap.Free(h, p - Heap.OVERHEAD), t);
  }

  lemma OthersJoin(s: State, h: Heap.State, t: Tid, hi: nat)
    requires Backed(s, h, hi) && CanStep(s, t) && t in s.threads && s.threads[t].dying.None?
      && !s.threads[t].pc.PutAlloc?
    ensures CanStepJointly(s, h, t)
  {
    hide Next, Backed;
    FreeInCells(s, h, hi);
    var s' :| Next(s, s', t);
    assert Joint(s, h, s', h, t);
  }

  // With the first-fit allocator, too, a thread can move if and only if it is not waiting for the mutex.
  lemma OnlyMutexBlocksJointly(states: seq<State>, heaps: seq<Heap.State>, actors: seq<Tid>, hi: nat, n: nat, t: Tid)
    requires JointRun(states, heaps, actors, hi) && n < |states| && t in states[n].threads
    ensures CanStepJointly(states[n], heaps[n], t) <==> !Waiting(states[n], t)
  {
    hide JointRun, Run, Backed, Safe, CanStep, HeapMoves, Next, StepPutAlloc;
    JointIsRun(states, heaps, actors, hi);
    JointSizes(states, heaps, actors, hi);
    StaysBacked(states, heaps, actors, hi, n);
    OnlyMutexBlocks(states, actors, n, t);
    RunSafe(states, actors, n, t);
    var s, h := states[n], heaps[n];
    if s.threads[t].dying.Some? { FreeJoins(s, h, t, hi); }
    else if s.threads[t].pc.PutAlloc? { AllocJoins(s, h, t, hi); }
    else if Waiting(s, t) { JointSteps(s, h, t); }
    else { OthersJoin(s, h, t, hi); }
  }

  lemma JointSteps(s: State, h: Heap.State, t: Tid)
    ensures CanStepJointly(s, h, t) ==> CanStep(s, t)
  {
    hide Next, HeapMoves;
    if CanStepJointly(s, h, t) {
      var s', h' :| Joint(s, h, s', h', t);
      assert Next(s, s', t);
    }
  }
}
