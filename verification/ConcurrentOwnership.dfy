// Who owns which block: the reference counts are exact, a block is freed only when nothing refers to
// it, and no block is lost.
module ConcurrentOwnership {
  import opened Options
  import opened ConcurrentTable

  // The payload on which a thread at pc holds a reference.
  function RefOf(pc: Pc): Option<Addr> {
    match pc
    case GetCompare(_, _, p, _) => Some(p)
    case GetRead(_, _, p) => Some(p)
    case PutCompare(_, _, _, _, p) => Some(p)
    case PutDrop(_, _, p) => Some(p)
    case _ => None
  }

  // The allocated block a put has not yet handed to a shared pointer.
  function RawOf(pc: Pc): Option<Addr> {
    match pc
    case PutHead(_, _, a) => Some(a)
    case PutLoad(_, _, a, _) => Some(a)
    case PutCompare(_, _, a, _, _) => Some(a)
    case PutNew(_, _, a) => Some(a)
    case PutWrite(_, _, a, _, _) => Some(a)
    case PutStore(_, _, a, _, _) => Some(a)
    case _ => None
  }

  function BucketRefs(payloads: seq<Option<Addr>>, a: Addr): set<nat> {
    set i: nat | i < |payloads| && payloads[i] == Some(a)
  }

  function ThreadRefs(threads: map<Tid, Thread>, a: Addr): set<Tid> {
    set t | t in threads && RefOf(threads[t].pc) == Some(a)
  }

  function Count(payloads: seq<Option<Addr>>, threads: map<Tid, Thread>, a: Addr): nat {
    |BucketRefs(payloads, a)| + |ThreadRefs(threads, a)|
  }

  ghost predicate RawBy(threads: map<Tid, Thread>, lock: Option<Tid>, a: Addr) {
    lock.Some? && lock.value in threads && RawOf(threads[lock.value].pc) == Some(a)
  }

  // Every count is exact.
  ghost predicate Counted(rc: map<Addr, nat>, payloads: seq<Option<Addr>>, threads: map<Tid, Thread>) {
    forall a <- rc :: rc[a] == Count(payloads, threads, a)
  }

  // Whatever is referred to is counted.
  ghost predicate Referring(rc: map<Addr, nat>, payloads: seq<Option<Addr>>, threads: map<Tid, Thread>) {
    && (forall i :: 0 <= i < |payloads| && payloads[i].Some? ==> payloads[i].value in rc)
    && (forall t <- threads :: RefOf(threads[t].pc).Some? ==> RefOf(threads[t].pc).value in rc)
  }

  // Every block in use is counted or belongs to the put that holds the lock.
  ghost predicate Accounted(blocks: set<Addr>, rc: map<Addr, nat>, threads: map<Tid, Thread>, lock: Option<Tid>) {
    && (forall t <- threads :: RawOf(threads[t].pc).Some? ==>
          lock == Some(t) && RawOf(threads[t].pc).value in blocks && RawOf(threads[t].pc).value !in rc)
    && (forall a <- blocks :: a in rc || RawBy(threads, lock, a))
    && (forall a <- rc :: a in blocks)
  }

  // A count is zero exactly while one thread is about to free the block.
  ghost predicate Dying(rc: map<Addr, nat>, threads: map<Tid, Thread>) {
    && (forall t <- threads :: threads[t].dying.Some? ==> threads[t].dying.value in rc && rc[threads[t].dying.value] == 0)
    && (forall t <- threads, u <- threads :: t != u && threads[t].dying.Some? ==> threads[t].dying != threads[u].dying)
    && (forall a <- rc :: rc[a] == 0 ==> exists t :: t in threads && threads[t].dying == Some(a))
  }

  ghost predicate Own(s: State) {
    && Counted(s.rc, s.payloads, s.threads)
    && Referring(s.rc, s.payloads, s.threads)
    && Accounted(s.mem.Keys, s.rc, s.threads, s.lock)
    && Dying(s.rc, s.threads)
  }

  // --- counting ------------------------------------------------------------------------------------------

  lemma CountMove(payloads: seq<Option<Addr>>, threads: map<Tid, Thread>, t: Tid, th: Thread, a: Addr)
    requires t in threads
    ensures Count(payloads, threads[t := th], a) ==
      Count(payloads, threads, a) - (if RefOf(threads[t].pc) == Some(a) then 1 else 0) + (if RefOf(th.pc) == Some(a)
          then 1 else 0)
  {
    var before, after := ThreadRefs(threads, a), ThreadRefs(threads[t := th], a);
    assert t in before <==> RefOf(threads[t].pc) == Some(a);
    assert t in after <==> RefOf(th.pc) == Some(a);
    assert forall u <- threads :: u != t ==> (u in after <==> u in before);
    if RefOf(th.pc) == Some(a) {
      assert after == before + {t};
    } else {
      assert after == before - {t};
    }
  }

  lemma StoreRefs(payloads: seq<Option<Addr>>, b: nat, x: Addr, a: Addr)
    requires b < |payloads|
    ensures BucketRefs(payloads[b := Some(x)], a) == if x == a then BucketRefs(payloads, a) + {b}
      else BucketRefs(payloads, a) - {b}
    ensures b in BucketRefs(payloads, a) <==> payloads[b] == Some(a)
  {
    var after := payloads[b := Some(x)];
    assert forall i: nat :: i < |payloads| ==> after[i] == if i == b then Some(x) else payloads[i];
  }

  lemma CountStore(payloads: seq<Option<Addr>>, threads: map<Tid, Thread>, b: nat, x: Addr, a: Addr)
    requires b < |payloads|
    ensures Count(payloads[b := Some(x)], threads, a) ==
      Count(payloads, threads, a) - (if payloads[b] == Some(a) then 1 else 0) + (if x == a then 1 else 0)
  {
    hide BucketRefs, ThreadRefs;
    StoreRefs(payloads, b, x, a);
  }

  lemma CountAppend(payloads: seq<Option<Addr>>, threads: map<Tid, Thread>, a: Addr)
    ensures Count(payloads + [None], threads, a) == Count(payloads, threads, a)
  {
    assert BucketRefs(payloads + [None], a) == BucketRefs(payloads, a);
  }

  lemma Referenced(payloads: seq<Option<Addr>>, threads: map<Tid, Thread>, a: Addr)
    ensures forall i :: 0 <= i < |payloads| && payloads[i] == Some(a) ==> Count(payloads, threads, a) > 0
    ensures forall t <- threads :: RefOf(threads[t].pc) == Some(a) ==> Count(payloads, threads, a) > 0
  {
    assert forall i: nat :: i < |payloads| && payloads[i] == Some(a) ==> i in BucketRefs(payloads, a);
    assert forall t <- threads :: RefOf(threads[t].pc) == Some(a) ==> t in ThreadRefs(threads, a);
  }

  lemma DyingMove(rc: map<Addr, nat>, rc': map<Addr, nat>, threads: map<Tid, Thread>, t: Tid, th: Thread)
    requires Dying(rc, threads) && t in threads && threads[t].dying.None?
    requires th.dying.Some? ==> th.dying.value in rc && rc[th.dying.value] != 0
    requires forall a :: (a in rc' && rc'[a] == 0) <==> (a in rc && rc[a] == 0) || th.dying == Some(a)
    ensures Dying(rc', threads[t := th])
  {
    var moved := threads[t := th];
    forall a | a in rc' && rc'[a] == 0
      ensures exists u :: u in moved && moved[u].dying == Some(a)
    {
      if th.dying == Some(a) {
        assert moved[t].dying == Some(a);
      } else {
        var u :| u in threads && threads[u].dying == Some(a);
        assert moved[u].dying == Some(a);
      }
    }
  }

  lemma DyingGone(rc: map<Addr, nat>, rc': map<Addr, nat>, threads: map<Tid, Thread>, t: Tid, th: Thread)
    requires Dying(rc, threads) && t in threads && threads[t].dying.Some? && th.dying.None?
    requires rc' == rc - {threads[t].dying.value}
    ensures Dying(rc', threads[t := th])
  {
    var moved := threads[t := th];
    forall a | a in rc' && rc'[a] == 0
      ensures exists u :: u in moved && moved[u].dying == Some(a)
    {
      var u :| u in threads && threads[u].dying == Some(a);
      assert moved[u].dying == Some(a);
    }
  }

  // --- what each kind of step does ---------------------------------------------------------------------------

  // A thread moves on without touching references; the lock may change hands if no raw block is involved.
  lemma OwnMove(s: State, s': State, t: Tid, pc: Pc)
    requires Own(s) && t in s.threads && s.threads[t].dying.None?
    requires s'.threads == Move(s, t, pc) && RefOf(pc) == RefOf(s.threads[t].pc) && RawOf(pc) == RawOf(s.threads[t].pc)
    requires s'.mem.Keys == s.mem.Keys && s'.rc == s.rc
      && (s'.payloads == s.payloads || s'.payloads == s.payloads + [None])
    requires s'.lock == s.lock || (RawOf(pc).None? && (s.lock == None || s.lock == Some(t)))
    ensures Own(s')
  {
    hide Count, Dying;
    forall a | a in s.rc
      ensures Count(s'.payloads, s'.threads, a) == Count(s.payloads, s.threads, a)
    {
      CountMove(s.payloads, s.threads, t, Thread(pc, None), a);
      CountAppend(s.payloads, s'.threads, a);
    }
    DyingMove(s.rc, s'.rc, s.threads, t, s'.threads[t]);
  }

  lemma OwnLoad(s: State, s': State, t: Tid, p: Addr, pc: Pc)
    requires Own(s) && t in s.threads && s.threads[t].dying.None? && p in s.rc && s.rc[p] > 0
    requires s'.threads == Move(s, t, pc) && RefOf(s.threads[t].pc).None? && RefOf(pc) == Some(p)
      && RawOf(pc) == RawOf(s.threads[t].pc)
    requires s'.mem == s.mem && s'.rc == s.rc[p := s.rc[p] + 1] && s'.payloads == s.payloads && s'.lock == s.lock
    ensures Own(s')
  {
    hide Count, Dying;
    forall a | a in s.rc
      ensures Count(s'.payloads, s'.threads, a) == s'.rc[a]
    {
      CountMove(s.payloads, s.threads, t, Thread(pc, None), a);
    }
    DyingMove(s.rc, s'.rc, s.threads, t, s'.threads[t]);
  }

  ghost predicate Dropping(s: State, s': State, t: Tid, p: Addr, pc: Pc) {
    && t in s.threads && s.threads[t].dying.None? && RefOf(s.threads[t].pc) == Some(p) && p in s.rc && s.rc[p] > 0
    && RefOf(pc).None? && RawOf(pc) == RawOf(s.threads[t].pc)
    && s'.threads == DropRef(s, t, p, pc).threads && s'.rc == DropRef(s, t, p, pc).rc
    && s'.mem == s.mem && s'.payloads == s.payloads && s'.lock == s.lock
  }

  lemma DropCounted(s: State, s': State, t: Tid, p: Addr, pc: Pc)
    requires Counted(s.rc, s.payloads, s.threads) && Dropping(s, s', t, p, pc)
    ensures Counted(s'.rc, s'.payloads, s'.threads)
  {
    hide Count, Dying;
    forall a | a in s.rc
      ensures Count(s'.payloads, s'.threads, a) == s'.rc[a]
    {
      CountMove(s.payloads, s.threads, t, s'.threads[t], a);
    }
  }

  lemma DropDying(s: State, s': State, t: Tid, p: Addr, pc: Pc)
    requires Dying(s.rc, s.threads) && Dropping(s, s', t, p, pc)
    ensures Dying(s'.rc, s'.threads)
  {
    hide Dying;
    DyingMove(s.rc, s'.rc, s.threads, t, s'.threads[t]);
  }

  lemma DropAccounted(s: State, s': State, t: Tid, p: Addr, pc: Pc)
    requires Referring(s.rc, s.payloads, s.threads) && Accounted(s.mem.Keys, s.rc, s.threads, s.lock)
      && Dropping(s, s', t, p, pc)
    ensures Referring(s'.rc, s'.payloads, s'.threads) && Accounted(s'.mem.Keys, s'.rc, s'.threads, s'.lock)
  {
  }

  lemma OwnDrop(s: State, s': State, t: Tid, p: Addr, pc: Pc)
    requires Own(s) && Dropping(s, s', t, p, pc)
    ensures Own(s')
  {
    hide Counted, Referring, Accounted, Dying, Dropping;
    DropCounted(s, s', t, p, pc);
    DropDying(s, s', t, p, pc);
    DropAccounted(s, s', t, p, pc);
  }

  lemma OwnAlloc(s: State, s': State, t: Tid, x: Addr, pc: Pc)
    requires Own(s) && t in s.threads && s.threads[t].dying.None? && x !in s.mem
    requires RefOf(s.threads[t].pc).None? && RawOf(s.threads[t].pc).None? && RefOf(pc).None? && RawOf(pc) == Some(x)
    requires s'.threads == Move(s, t, pc) && s'.mem == s.mem[x := Raw] && s'.rc == s.rc && s'.payloads == s.payloads
    requires s'.lock == s.lock == Some(t)
    ensures Own(s')
  {
    hide Count, Dying;
    forall a | a in s.rc
      ensures Count(s'.payloads, s'.threads, a) == s'.rc[a]
    {
      CountMove(s.payloads, s.threads, t, Thread(pc, None), a);
    }
    DyingMove(s.rc, s'.rc, s.threads, t, s'.threads[t]);
  }

  // The raw block a becomes the payload of bucket b; its previous payload, if any, is now held by t.
  lemma OwnStore(s: State, s': State, t: Tid, a: Addr, b: nat, pc: Pc)
    requires Own(s) && t in s.threads && s.threads[t].dying.None? && b < |s.payloads|
    requires RefOf(s.threads[t].pc).None? && RawOf(s.threads[t].pc) == Some(a) && RawOf(pc).None?
      && RefOf(pc) == s.payloads[b]
    requires s'.threads == Move(s, t, pc) && s'.mem == s.mem && s'.rc == s.rc[a := 1]
      && s'.payloads == s.payloads[b := Some(a)]
    requires s'.lock == s.lock == Some(t)
    ensures Own(s')
  {
    hide Count, Dying;
    forall x | x in s'.rc
      ensures Count(s'.payloads, s'.threads, x) == s'.rc[x]
    {
      CountStore(s.payloads, s.threads, b, a, x);
      CountMove(s'.payloads, s.threads, t, Thread(pc, None), x);
      if x == a { Unowned(s, a); }
    }
    DyingMove(s.rc, s'.rc, s.threads, t, s'.threads[t]);
  }

  lemma Unowned(s: State, a: Addr)
    requires Own(s) && a !in s.rc
    ensures Count(s.payloads, s.threads, a) == 0
  {
    assert BucketRefs(s.payloads, a) == {};
    assert ThreadRefs(s.threads, a) == {};
  }

  // Nothing refers to a block that is about to be freed.
  lemma FreedUnreferenced(s: State, t: Tid, p: Addr)
    requires Own(s) && t in s.threads && s.threads[t].dying == Some(p)
    ensures forall i :: 0 <= i < |s.payloads| ==> s.payloads[i] != Some(p)
    ensures forall u <- s.threads :: RefOf(s.threads[u].pc) != Some(p)
    ensures p in s.rc && s.rc[p] == 0
  {
    hide Count;
    Referenced(s.payloads, s.threads, p);
  }

  lemma OwnFree(s: State, s': State, t: Tid, p: Addr)
    requires Own(s) && t in s.threads && s.threads[t].dying == Some(p)
    requires s'.threads == Move(s, t, s.threads[t].pc) && s'.mem == s.mem - {p} && s'.rc == s.rc - {p}
    requires s'.payloads == s.payloads && s'.lock == s.lock
    ensures Own(s')
  {
    hide Count, Dying;
    FreedUnreferenced(s, t, p);
    forall a | a in s'.rc
      ensures Count(s'.payloads, s'.threads, a) == s'.rc[a]
    {
      CountMove(s.payloads, s.threads, t, Thread(s.threads[t].pc, None), a);
    }
    DyingGone(s.rc, s'.rc, s.threads, t, s'.threads[t]);
  }
}
