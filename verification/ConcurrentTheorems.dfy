// What holds of the concurrent table over every run: linearizability, exact ownership of blocks, and
// safety of every memory access.
module ConcurrentTheorems {
  import opened Options
  import opened ConcurrentTable
  import opened ConcurrentOwnership
  import opened ConcurrentChains
  import opened ConcurrentInvariant
  import opened ConcurrentReload
  import opened ConcurrentSteps

  lemma NextInv(s: State, s': State, t: Tid)
    requires Inv(s) && Next(s, s', t)
    ensures Inv(s')
  {
    hide Inv;
    if op :| StepCall(s, s', t, op) { CallInv(s, s', t, op); }
    else if StepGetHead(s, s', t) { GetHeadInv(s, s', t); }
    else if StepGetLoad(s, s', t) { GetLoadInv(s, s', t); }
    else if StepGetCompare(s, s', t) { GetCompareInv(s, s', t); }
    else if StepGetReload(s, s', t) { GetReloadInv(s, s', t); }
    else if StepGetRead(s, s', t) { GetReadInv(s, s', t); }
    else if StepGetReturn(s, s', t) { GetReturnInv(s, s', t); }
    else if StepPutLock(s, s', t) { PutLockInv(s, s', t); }
    else if a :| StepPutAlloc(s, s', t, a) { PutAllocInv(s, s', t, a); }
    else if StepPutHead(s, s', t) { PutHeadInv(s, s', t); }
    else if StepPutLoad(s, s', t) { PutLoadInv(s, s', t); }
    else if StepPutCompare(s, s', t) { PutCompareInv(s, s', t); }
    else if StepPutNew(s, s', t) { PutNewInv(s, s', t); }
    else if StepPutWrite(s, s', t) { PutWriteInv(s, s', t); }
    else if StepPutStore(s, s', t) {
      if s.threads[t].pc.isNew { PutStoreNewInv(s, s', t); } else { PutStoreOldInv(s, s', t); }
    }
    else if StepPutDrop(s, s', t) { PutDropInv(s, s', t); }
    else if StepPutLink(s, s', t) { PutLinkInv(s, s', t); }
    else if StepPutPublish(s, s', t) { PutPublishInv(s, s', t); }
    else if StepPutUnlock(s, s', t) { PutUnlockInv(s, s', t); }
    else if StepPutReturn(s, s', t) { PutReturnInv(s, s', t); }
    else { FreeInv(s, s', t); }
  }

  // An interleaving: actors[i] is the thread that takes step i.
  ghost predicate Run(states: seq<State>, actors: seq<Tid>) {
    && |states| == |actors| + 1
    && Init(states[0])
    && forall i :: 0 <= i < |actors| ==> Next(states[i], states[i + 1], actors[i])
  }

  lemma {:induction false} RunInv(states: seq<State>, actors: seq<Tid>, i: nat)
    requires Run(states, actors) && i < |states|
    ensures Inv(states[i])
  {
    if i == 0 {
      InitInv(states[0]);
    } else {
      RunInv(states, actors, i - 1);
      NextInv(states[i - 1], states[i], actors[i - 1]);
    }
  }

  // A thread that has never moved is in no history.
  lemma {:induction false} StrangersQuiet(states: seq<State>, actors: seq<Tid>, i: nat, t: Tid)
    requires Run(states, actors) && i < |states| && t !in states[i].threads
    ensures Track(states[i].hist, t) == Quiet
  {
    hide *;
    if i == 0 {
      RunStart(states, actors, t);
    } else {
      RunLength(states, actors);
      RunStep(states, actors, i - 1);
      StepFrame(states[i - 1], states[i], actors[i - 1]);
      StrangersQuiet(states, actors, i - 1, t);
      OtherTrack(states[i - 1].hist, states[i].hist, actors[i - 1], t);
    }
  }

  lemma RunStart(states: seq<State>, actors: seq<Tid>, t: Tid)
    requires Run(states, actors)
    ensures Init(states[0]) && Track(states[0].hist, t) == Quiet
  {
    hide Next, Track;
  }

  lemma RunLength(states: seq<State>, actors: seq<Tid>)
    requires Run(states, actors)
    ensures |states| == |actors| + 1
  {
    hide Next, Init;
  }

  lemma RunStep(states: seq<State>, actors: seq<Tid>, i: nat)
    requires Run(states, actors) && i < |actors|
    ensures i + 1 < |states| && Next(states[i], states[i + 1], actors[i])
  {
    hide Next, Init;
  }

  // What every step leaves alone: the other threads, the past, and, without the mutex, the set of
  // published buckets.
  lemma GetStepFrame(s: State, s': State, t: Tid)
    requires StepGetHead(s, s', t) || StepGetLoad(s, s', t) || StepGetCompare(s, s', t)
      || StepGetReload(s, s', t) || StepGetRead(s, s', t) || StepGetReturn(s, s', t)
    ensures t in s.threads && t in s'.threads && s'.threads == s.threads[t := s'.threads[t]]
      && LogBy(s.hist, s'.hist, t)
    ensures s'.npub == s.npub || (Ready(s, t) && s.threads[t].pc.PutPublish?)
    ensures Begins(s'.threads[t].pc) ==> Begins(s.threads[t].pc) || Fresh(s, t)
  {
    hide Abs, Loadable, Droppable;
  }

  lemma SearchStepFrame(s: State, s': State, t: Tid)
    requires StepPutLock(s, s', t) || StepPutHead(s, s', t) || StepPutLoad(s, s', t)
      || StepPutCompare(s, s', t) || StepPutNew(s, s', t) || StepPutWrite(s, s', t)
    ensures t in s.threads && t in s'.threads && s'.threads == s.threads[t := s'.threads[t]]
      && LogBy(s.hist, s'.hist, t)
    ensures s'.npub == s.npub || (Ready(s, t) && s.threads[t].pc.PutPublish?)
    ensures Begins(s'.threads[t].pc) ==> Begins(s.threads[t].pc) || Fresh(s, t)
  {
    hide Abs, Loadable, Droppable;
  }

  lemma UpdateStepFrame(s: State, s': State, t: Tid)
    requires StepPutStore(s, s', t) || StepPutDrop(s, s', t) || StepPutLink(s, s', t) || StepPutPublish(s, s', t)
      || StepPutUnlock(s, s', t) || StepPutReturn(s, s', t) || StepFree(s, s', t)
    ensures t in s.threads && t in s'.threads && s'.threads == s.threads[t := s'.threads[t]]
      && LogBy(s.hist, s'.hist, t)
    ensures s'.npub == s.npub || (Ready(s, t) && s.threads[t].pc.PutPublish?)
    ensures Begins(s'.threads[t].pc) ==> Begins(s.threads[t].pc) || Fresh(s, t)
  {
    hide Abs, Loadable, Droppable;
  }

  lemma CallStepFrame(s: State, s': State, t: Tid, op: Op)
    requires StepCall(s, s', t, op)
    ensures t in s.threads && t in s'.threads && s'.threads == s.threads[t := s'.threads[t]]
      && LogBy(s.hist, s'.hist, t)
    ensures s'.npub == s.npub || (Ready(s, t) && s.threads[t].pc.PutPublish?)
    ensures Begins(s'.threads[t].pc) ==> Begins(s.threads[t].pc) || Fresh(s, t)
  {
    LogIs(s.hist, s'.hist, Invoke(t, op));
  }

  lemma AllocStepFrame(s: State, s': State, t: Tid, a: Option<Addr>)
    requires StepPutAlloc(s, s', t, a)
    ensures t in s.threads && t in s'.threads && s'.threads == s.threads[t := s'.threads[t]]
      && LogBy(s.hist, s'.hist, t)
    ensures s'.npub == s.npub || (Ready(s, t) && s.threads[t].pc.PutPublish?)
    ensures Begins(s'.threads[t].pc) ==> Begins(s.threads[t].pc) || Fresh(s, t)
  {
  }

  lemma StepFrame(s: State, s': State, t: Tid)
    requires Next(s, s', t)
    ensures t in s.threads && t in s'.threads && s'.threads == s.threads[t := s'.threads[t]]
      && LogBy(s.hist, s'.hist, t)
    ensures s'.npub == s.npub || (Ready(s, t) && s.threads[t].pc.PutPublish?)
    ensures Begins(s'.threads[t].pc) ==> Begins(s.threads[t].pc) || Fresh(s, t)
  {
    hide Abs, LogBy, Fresh, Begins, StepCall, StepPutAlloc, StepGetHead, StepGetLoad, StepGetCompare, StepGetReload,
      StepGetRead,
      StepGetReturn, StepPutLock, StepPutHead, StepPutLoad, StepPutCompare, StepPutNew, StepPutWrite, StepPutStore,
          StepPutDrop,
          StepPutLink, StepPutPublish, StepPutUnlock, StepPutReturn, StepFree;
    if op :| StepCall(s, s', t, op) { CallStepFrame(s, s', t, op); }
    else if a :| StepPutAlloc(s, s', t, a) { AllocStepFrame(s, s', t, a); }
    else if StepGetHead(s, s', t) || StepGetLoad(s, s', t) || StepGetCompare(s, s', t) || StepGetReload(s, s', t)
        || StepGetRead(s, s', t) || StepGetReturn(s, s', t) { GetStepFrame(s, s', t); }
    else if StepPutLock(s, s', t) || StepPutHead(s, s', t) || StepPutLoad(s, s', t) || StepPutCompare(s, s', t)
        || StepPutNew(s, s', t) || StepPutWrite(s, s', t) { SearchStepFrame(s, s', t); }
    else { UpdateStepFrame(s, s', t); }
  }

  // --- linearizability --------------------------------------------------------------------------------------

  ghost predicate Of(h: seq<Event>, i: nat, t: Tid)
    requires i < |h|
  {
    h[i].t == t
  }

  // Between lo and hi, thread t has no event.
  ghost predicate SilentBetween(h: seq<Event>, lo: nat, hi: nat, t: Tid)
    requires hi <= |h|
  {
    forall i: nat :: lo < i < hi ==> !Of(h, i, t)
  }

  // A pending operation was invoked, and a linearized one was invoked and then took effect, giving the
  // answer of the sequential map, with no other event of the thread in between or since.
  ghost predicate Witnessed(h: seq<Event>, t: Tid, st: Status) {
    match st
    case Quiet => true
    case Broken => false
    case Pending(op) => exists i: nat :: i < |h| && h[i] == Invoke(t, op) && SilentBetween(h, i, |h|, t)
    case Linearized(op, res) => exists i: nat, j: nat :: InvokedThenLinearized(h, t, op, res, i, j, |h|)
  }

  ghost predicate InvokedThenLinearized(h: seq<Event>, t: Tid, op: Op, res: Res, i: nat, j: nat, end: nat) {
    && i < j < end <= |h| && h[i] == Invoke(t, op) && h[j] == Linearize(t, op, res)
    && SilentBetween(h, i, j, t) && SilentBetween(h, j, end, t)
    && Answers(Abs(h[..j]), op, res)
  }

  lemma {:induction false} TrackWitnessed(h: seq<Event>, t: Tid)
    requires Legal(h) && Track(h, t) != Broken
    ensures Witnessed(h, t, Track(h, t))
    decreases |h|
  {
    if h != [] {
      var n := |h| - 1;
      var p, e := h[..n], h[n];
      if Track(p, t) != Broken {
        TrackWitnessed(p, t);
        ExtendWitness(p, e, t, Track(p, t));
        assert p + [e] == h;
      }
    }
  }

  lemma ExtendWitness(p: seq<Event>, e: Event, t: Tid, st: Status)
    requires Legal(p + [e]) && st == Track(p, t) && Witnessed(p, t, st) && Track(p + [e], t) != Broken
    ensures Witnessed(p + [e], t, Track(p + [e], t))
  {
    var h := p + [e];
    var n := |p|;
    assert h[..n] == p;
    if e.t != t {
      match st
      case Pending(op) =>
        var i: nat :| i < n && p[i] == Invoke(t, op) && SilentBetween(p, i, n, t);
        SilentMore(p, e, i, t);
        assert h[i] == Invoke(t, op);
      case Linearized(op, res) =>
        var i: nat, j: nat :| InvokedThenLinearized(p, t, op, res, i, j, n);
        SilentMore(p, e, j, t);
        SilentSame(p, e, i, j, t);
        assert h[..j] == p[..j];
        assert InvokedThenLinearized(h, t, op, res, i, j, n + 1);
      case _ =>
    } else if e.Invoke? {
      assert h[n] == Invoke(t, e.op) && SilentBetween(h, n, n + 1, t);
    } else if e.Linearize? {
      var i: nat :| i < n && p[i] == Invoke(t, e.op) && SilentBetween(p, i, n, t);
      SilentSame(p, e, i, n, t);
      assert InvokedThenLinearized(h, t, e.op, e.res, i, n, n + 1);
    }
  }

  lemma SilentSame(p: seq<Event>, e: Event, lo: nat, hi: nat, t: Tid)
    requires hi <= |p| && SilentBetween(p, lo, hi, t)
    ensures SilentBetween(p + [e], lo, hi, t)
  {
    forall i | lo < i < hi
      ensures !Of(p + [e], i, t)
    {
      assert !Of(p, i, t);
    }
  }

  lemma SilentMore(p: seq<Event>, e: Event, lo: nat, t: Tid)
    requires SilentBetween(p, lo, |p|, t) && e.t != t
    ensures SilentBetween(p + [e], lo, |p| + 1, t)
  {
    forall i | lo < i < |p| + 1
      ensures !Of(p + [e], i, t)
    {
      if i < |p| { assert !Of(p, i, t); }
    }
  }

  lemma {:induction false} PrefixFacts(h: seq<Event>, n: nat, t: Tid)
    requires n <= |h|
    ensures Legal(h) ==> Legal(h[..n])
    ensures Track(h, t) != Broken ==> Track(h[..n], t) != Broken
    decreases |h|
  {
    if n < |h| {
      assert h[..|h| - 1][..n] == h[..n];
      PrefixFacts(h[..|h| - 1], n, t);
    } else {
      assert h[..n] == h;
    }
  }

  // In every interleaving of any number of gets and puts, every answered operation took effect at one
  // point between its invocation and its answer, and all answers are those of a sequential map that
  // executes the operations in the order of these points.
  lemma Linearizable(states: seq<State>, actors: seq<Tid>, n: nat, r: nat)
    requires Run(states, actors) && n < |states| && r < |states[n].hist|
    requires states[n].hist[r].Respond?
    ensures var h, e := states[n].hist, states[n].hist[r];
      Legal(h) && exists i: nat, j: nat :: InvokedThenLinearized(h, e.t, e.op, e.res, i, j, r)
  {
    RunInv(states, actors, n);
    var s := states[n];
    var h, e := s.hist, s.hist[r];
    if e.t in s.threads { Here(s, e.t); } else { StrangersQuiet(states, actors, n, e.t); }
    assert Track(h, e.t) != Broken;
    hide Inv, Recorded, Local;
    PrefixFacts(h, r, e.t);
    PrefixFacts(h, r + 1, e.t);
    assert h[..r + 1][..r] == h[..r];
    assert Track(h[..r], e.t) == Linearized(e.op, e.res);
    TrackWitnessed(h[..r], e.t);
    var i: nat, j: nat :| InvokedThenLinearized(h[..r], e.t, e.op, e.res, i, j, r);
    WitnessLifts(h, r, e.t, e.op, e.res, i, j);
  }

  lemma WitnessLifts(h: seq<Event>, r: nat, t: Tid, op: Op, res: Res, i: nat, j: nat)
    requires r <= |h| && InvokedThenLinearized(h[..r], t, op, res, i, j, r)
    ensures InvokedThenLinearized(h, t, op, res, i, j, r)
  {
    assert h[..r][..j] == h[..j];
    forall x | i < x < j ensures !Of(h, x, t) { assert !Of(h[..r], x, t); }
    forall x | j < x < r ensures !Of(h, x, t) { assert !Of(h[..r], x, t); }
  }

  // The table's contents are at every moment those of the sequential map.
  lemma ContentsAreAbs(states: seq<State>, actors: seq<Tid>, n: nat, k: Key)
    requires Run(states, actors) && n < |states|
    ensures var s := states[n];
      && |s.payloads| == |s.links| && s.npub <= |s.links|
      && (k in Abs(s.hist) <==> exists i :: 0 <= i < s.npub && s.links[i].key == k)
      && forall i :: 0 <= i < s.npub && s.links[i].key == k ==>
           k in Abs(s.hist) && s.payloads[i].Some? && s.payloads[i].value in s.mem
               && s.mem[s.payloads[i].value] == Pair(k, Abs(s.hist)[k])
  {
    RunInv(states, actors, n);
    hide Own, Local, Recorded, Legal, Chained, Locked, Keyed, Abs;
  }

  // --- ownership -----------------------------------------------------------------------------------------------

  // A block is in use iff a bucket, a reader or writer holding a reference, a put that has not handed it
  // over, or a thread about to free it accounts for it.
  lemma UsedIffOwned(states: seq<State>, actors: seq<Tid>, n: nat, a: Addr)
    requires Run(states, actors) && n < |states|
    ensures var s := states[n];
      a in s.mem <==>
        || (exists i :: 0 <= i < |s.payloads| && s.payloads[i] == Some(a))
        || (exists t :: t in s.threads && RefOf(s.threads[t].pc) == Some(a))
        || (exists t :: t in s.threads && RawOf(s.threads[t].pc) == Some(a))
        || (exists t :: t in s.threads && s.threads[t].dying == Some(a))
  {
    RunInv(states, actors, n);
    var s := states[n];
    if a in s.mem && a in s.rc && s.rc[a] > 0 {
      CountedSomewhere(s.payloads, s.threads, a);
    }
    if a in s.mem && a !in s.rc {
      assert RawBy(s.threads, s.lock, a);
    }
  }

  lemma CountedSomewhere(payloads: seq<Option<Addr>>, threads: map<Tid, Thread>, a: Addr)
    requires Count(payloads, threads, a) > 0
    ensures (exists i :: 0 <= i < |payloads| && payloads[i] == Some(a)) || exists t :: t in threads && RefOf(threads[t].pc) == Some(a)
  {
    if BucketRefs(payloads, a) != {} {
      var i :| i in BucketRefs(payloads, a);
      assert payloads[i] == Some(a);
    } else {
      var t :| t in ThreadRefs(threads, a);
      assert RefOf(threads[t].pc) == Some(a);
    }
  }

  // A block is never freed while anything refers to it, and only one thread is about to free it.
  lemma FreedOnce(states: seq<State>, actors: seq<Tid>, n: nat, t: Tid, p: Addr)
    requires Run(states, actors) && n < |states|
    requires t in states[n].threads && states[n].threads[t].dying == Some(p)
    ensures var s := states[n];
      && p in s.mem
      && (forall i :: 0 <= i < |s.payloads| ==> s.payloads[i] != Some(p))
      && (forall u <- s.threads :: !Uses(s.threads[u].pc, p))
      && (forall u <- s.threads :: u != t ==> s.threads[u].dying != Some(p))
  {
    RunInv(states, actors, n);
    DyingFacts(states[n], t, p);
  }

  // Every pointer a thread is about to follow is valid, and every payload it is about to read is a live pair.
  lemma SafeAccess(states: seq<State>, actors: seq<Tid>, n: nat, t: Tid)
    requires Run(states, actors) && n < |states| && t in states[n].threads
    ensures var s, pc := states[n], states[n].threads[t].pc;
      && (pc.GetLoad? || pc.GetReload? || pc.PutLoad? ==> Loadable(s, pc.b) && Holds(s.mem, s.payloads[pc.b].value, s.links[pc.b].key))
      && (pc.GetCompare? || pc.GetRead? || pc.PutCompare? || pc.PutDrop? ==> Droppable(s, pc.p))
      && (pc.GetCompare? || pc.PutCompare? ==> pc.b < |s.links|)
      && (pc.PutStore? || pc.PutLink? ==> pc.b < |s.payloads| == |s.links|)
      && (pc.PutWrite? ==> pc.a in s.mem && pc.a !in s.rc)
  {
    RunInv(states, actors, n);
    var s := states[n];
    Here(s, t);
    var pc := s.threads[t].pc;
    if pc.GetLoad? || pc.GetReload? || pc.PutLoad? { LoadFacts(s, pc.b); }
    if RefOf(pc).Some? { HeldFacts(s, t, RefOf(pc).value); }
    if pc.PutWrite? { RawFacts(s, t, pc.a); }
  }

  // When nobody is active, the blocks in use are exactly the payloads of the buckets, one each.
  lemma Quiescent(states: seq<State>, actors: seq<Tid>, n: nat)
    requires Run(states, actors) && n < |states| && Still(states[n])
    ensures var s := states[n];
      && (forall i :: 0 <= i < |s.payloads| ==> s.payloads[i].Some?)
      && (forall a :: a in s.mem <==> exists i :: 0 <= i < |s.payloads| && s.payloads[i] == Some(a))
      && (forall i, j :: 0 <= i < j < |s.payloads| ==> s.payloads[i] != s.payloads[j])
      && (forall a <- s.mem :: a in s.rc && s.rc[a] == 1)
  {
    RunInv(states, actors, n);
    var s := states[n];
    QuiescentPayloads(s);
    forall a
      ensures a in s.mem <==> exists i :: 0 <= i < |s.payloads| && s.payloads[i] == Some(a)
    {
      UsedIffOwned(states, actors, n, a);
    }
    hide Inv;
    forall a | a in s.mem
      ensures a in s.rc && s.rc[a] == 1
    {
      QuiescentCount(s, a);
    }
  }

  lemma QuiescentPayloads(s: State)
    requires Inv(s) && Still(s)
    ensures forall i :: 0 <= i < |s.payloads| ==> s.payloads[i].Some? && s.payloads[i].value in s.rc
    ensures forall i, j :: 0 <= i < j < |s.payloads| ==> s.payloads[i] != s.payloads[j]
  {
    hide Represents, Legal, Recorded, Local, Counted, Dying;
    forall i, j | 0 <= i < j < |s.payloads|
      ensures s.payloads[i] != s.payloads[j]
    {
      assert Holds(s.mem, s.payloads[i].value, s.links[i].key) && Holds(s.mem, s.payloads[j].value, s.links[j].key);
      assert s.links[i].key != s.links[j].key;
    }
  }

  lemma QuiescentCount(s: State, a: Addr)
    requires Counted(s.rc, s.payloads, s.threads) && Still(s) && a in s.rc
    requires exists i: nat :: i < |s.payloads| && s.payloads[i] == Some(a)
    requires forall i, j :: 0 <= i < j < |s.payloads| ==> s.payloads[i] != s.payloads[j]
    ensures s.rc[a] == 1
  {
    var i: nat :| i < |s.payloads| && s.payloads[i] == Some(a);
    assert BucketRefs(s.payloads, a) == {i};
    assert ThreadRefs(s.threads, a) == {};
  }
}
