// Who can move, and for how long: only the mutex ever makes a thread wait, its holder never waits, and
// the steps of one operation run out whatever the other threads do.
module ConcurrentProgress {
  import opened Options
  import opened ConcurrentTable
  import opened ConcurrentOwnership
  import opened ConcurrentInvariant
  import opened ConcurrentChains
  import opened ConcurrentSteps
  import opened ConcurrentReload
  import opened ConcurrentTheorems

  ghost predicate CanStep(s: State, t: Tid) { exists s' :: Next(s, s', t) }

  // Thread t is at the mutex, which is taken.
  predicate Waiting(s: State, t: Tid) { Ready(s, t) && s.threads[t].pc.PutLock? && s.lock.Some? }

  // What the next step of a thread looks up is there.
  ghost predicate Safe(s: State, t: Tid) {
    && t in s.threads
    && var pc := s.threads[t].pc;
      && (pc.GetLoad? || pc.GetReload? || pc.PutLoad? ==> Loadable(s, pc.b) && Holds(s.mem, s.payloads[pc.b].value, s.links[pc.b].key))
      && (pc.GetCompare? || pc.GetRead? || pc.PutCompare? || pc.PutDrop? ==> Droppable(s, pc.p))
      && (pc.GetCompare? || pc.PutCompare? ==> pc.b < |s.links|)
      && (pc.PutStore? || pc.PutLink? ==> pc.b < |s.payloads| == |s.links|)
      && (s.threads[t].dying.Some? ==> s.threads[t].dying.value in s.mem)
  }

  lemma GetMoves(s: State, t: Tid)
    requires Ready(s, t) && Safe(s, t)
    requires var pc := s.threads[t].pc;
      pc.Idle? || pc.GetHead? || pc.GetLoad? || pc.GetCompare? || pc.GetReload? || pc.GetRead? || pc.GetReturn?
    ensures CanStep(s, t)
  {
    hide Abs, Next, Loadable, Droppable;
    NextCases(s, t);
    var pc := s.threads[t].pc;
    match pc
    case Idle => assert StepCall(s, Log(s.(threads := Move(s, t, GetHead(""))), Invoke(t, Get(""))), t, Get(""));
    case GetHead(k) =>
      var hit := k in Abs(s.hist);
      var s1 := if s.slot(k) in s.heads then s.(threads := Move(s, t, GetLoad(k, s.heads[s.slot(k)], hit)))
                else s.(threads := Move(s, t, GetReturn(k, "")));
      assert StepGetHead(s, if hit then s1 else Log(s1, Linearize(t, Get(k), Found(""))), t);
    case GetLoad(k, b, hit) =>
      var p := LoadedPayload(s, b);
      assert StepGetLoad(s, LoadRef(s, t, p, GetCompare(k, b, p, hit)), t);
    case GetCompare(k, b, p, hit) =>
      DropSafe(s, p);
      assert StepGetCompare(s, DropRef(s, t, p, if s.mem[p].key == k then GetReload(k, b) else AfterGet(s, k, b, hit)),
        t);
    case GetReload(k, b) =>
      var p := LoadedPayload(s, b);
      assert StepGetReload(s, Log(LoadRef(s, t, p, GetRead(k, b, p)), Linearize(t, Get(k), Found(s.mem[p].value))), t);
    case GetRead(k, _, p) =>
      DropSafe(s, p);
      assert StepGetRead(s, DropRef(s, t, p, GetReturn(k, s.mem[p].value)), t);
    case GetReturn(k, r) => assert StepGetReturn(s, Log(s.(threads := Move(s, t, Idle)), Respond(t, Get(k), Found(r))),
        t);
  }

  lemma LoadedPayload(s: State, b: nat) returns (p: Addr)
    requires Loadable(s, b)
    ensures b < |s.payloads| && b < |s.links| && s.payloads[b] == Some(p) && p in s.rc
  {
    p := s.payloads[b].value;
  }

  lemma DropSafe(s: State, p: Addr)
    requires Droppable(s, p)
    ensures p in s.rc && s.rc[p] > 0 && p in s.mem && s.mem[p].Pair?
  {
  }

  // Any one kind of step is a step.
  lemma NextCases(s: State, t: Tid)
    ensures forall s', op :: StepCall(s, s', t, op) ==> CanStep(s, t)
    ensures forall s' :: StepGetHead(s, s', t) || StepGetLoad(s, s', t) || StepGetCompare(s, s', t) ==> CanStep(s, t)
    ensures forall s' :: StepGetReload(s, s', t) || StepGetRead(s, s', t) || StepGetReturn(s, s', t) ==> CanStep(s, t)
    ensures forall s' :: StepPutLock(s, s', t) || StepPutHead(s, s', t) || StepPutLoad(s, s', t) ==> CanStep(s, t)
    ensures forall s', a :: StepPutAlloc(s, s', t, a) ==> CanStep(s, t)
    ensures forall s' :: StepPutCompare(s, s', t) || StepPutNew(s, s', t) || StepPutWrite(s, s', t) ==> CanStep(s, t)
    ensures forall s' :: StepPutStore(s, s', t) || StepPutDrop(s, s', t) || StepPutLink(s, s', t) ==> CanStep(s, t)
    ensures forall s' :: StepPutPublish(s, s', t) || StepPutUnlock(s, s', t) || StepPutReturn(s, s', t) || StepFree(s, s', t) ==> CanStep(s, t)
  {
    hide StepCall, StepGetHead, StepGetLoad, StepGetCompare, StepGetReload, StepGetRead, StepGetReturn, StepPutLock,
      StepPutAlloc,
      StepPutHead, StepPutLoad, StepPutCompare, StepPutNew, StepPutWrite, StepPutStore, StepPutDrop, StepPutLink,
          StepPutPublish,
      StepPutUnlock, StepPutReturn, StepFree;
    forall s', op | StepCall(s, s', t, op) ensures CanStep(s, t) { assert Next(s, s', t); }
    forall s', a | StepPutAlloc(s, s', t, a) ensures CanStep(s, t) { assert Next(s, s', t); }
    forall s' | StepGetHead(s, s', t) || StepGetLoad(s, s', t) || StepGetCompare(s, s', t)
      || StepGetReload(s, s', t) || StepGetRead(s, s', t) || StepGetReturn(s, s', t)
      || StepPutLock(s, s', t) || StepPutHead(s, s', t) || StepPutLoad(s, s', t)
      || StepPutCompare(s, s', t) || StepPutNew(s, s', t) || StepPutWrite(s, s', t)
      || StepPutStore(s, s', t) || StepPutDrop(s, s', t) || StepPutLink(s, s', t)
      || StepPutPublish(s, s', t) || StepPutUnlock(s, s', t) || StepPutReturn(s, s', t) || StepFree(s, s', t)
      ensures CanStep(s, t)
    {
      assert Next(s, s', t);
    }
  }

  lemma SearchMoves(s: State, t: Tid)
    requires Ready(s, t) && Safe(s, t)
    requires var pc := s.threads[t].pc;
      (pc.PutLock? && s.lock.None?) || pc.PutAlloc? || pc.PutHead? || pc.PutLoad? || pc.PutCompare? || pc.PutNew?
          || pc.PutWrite?
    ensures CanStep(s, t)
  {
    hide Abs, Next, Loadable, Droppable;
    NextCases(s, t);
    var pc := s.threads[t].pc;
    match pc
    case PutLock(k, v) => assert StepPutLock(s, s.(lock := Some(t), threads := Move(s, t, PutAlloc(k, v))), t);
    case PutAlloc(k, v) =>
      assert StepPutAlloc(s, Log(s.(threads := Move(s, t, PutUnlock(k, v, false))),
        Linearize(t, Put(k, v), Done(false))), t, None);
    case PutHead(k, v, a) =>
      assert StepPutHead(s, s.(threads := Move(s, t, if s.slot(k) in s.heads then PutLoad(k, v, a, s.heads[s.slot(k)])
                                                     else PutNew(k, v, a))), t);
    case PutLoad(k, v, a, b) =>
      var p := LoadedPayload(s, b);
      assert StepPutLoad(s, LoadRef(s, t, p, PutCompare(k, v, a, b, p)), t);
    case PutCompare(k, v, a, b, p) =>
      DropSafe(s, p);
      assert StepPutCompare(s, DropRef(s, t, p, if s.mem[p].key == k then PutWrite(k, v, a, b, false)
        else AfterPut(s, k, v, a, b)),
        t);
    case PutNew(k, v, a) =>
      assert StepPutNew(s, s.(links := s.links + [Link(k, None)], payloads := s.payloads + [None],
                              threads := Move(s, t, PutWrite(k, v, a, |s.links|, true))), t);
    case PutWrite(k, v, a, b, isNew) =>
      assert StepPutWrite(s, s.(mem := s.mem[a := Pair(k, v)], threads := Move(s, t, PutStore(k, v, a, b, isNew))), t);
  }

  lemma UpdateMoves(s: State, t: Tid)
    requires Ready(s, t) && Safe(s, t)
    requires var pc := s.threads[t].pc;
      pc.PutStore? || pc.PutDrop? || pc.PutLink? || pc.PutPublish? || pc.PutUnlock? || pc.PutReturn?
    ensures CanStep(s, t)
  {
    hide Abs, Next, Loadable, Droppable;
    NextCases(s, t);
    var pc := s.threads[t].pc;
    match pc
    case PutStore(k, v, a, b, _) =>
      var s1 := s.(payloads := s.payloads[b := Some(a)], rc := s.rc[a := 1]);
      if s.payloads[b].Some? {
        assert StepPutStore(s, Log(s1.(threads := Move(s, t, PutDrop(k, v, s.payloads[b].value))),
          Linearize(t, Put(k, v), Done(true))), t);
      } else {
        assert StepPutStore(s, s1.(threads := Move(s, t, PutLink(k, v, b))), t);
      }
    case PutDrop(k, v, p) =>
      DropSafe(s, p);
      assert StepPutDrop(s, DropRef(s, t, p, PutUnlock(k, v, true)), t);
    case PutLink(k, v, b) =>
      var next := if s.slot(k) in s.heads then Some(s.heads[s.slot(k)]) else None;
      assert StepPutLink(s, s.(links := s.links[b := s.links[b].(next := next)],
        threads := Move(s, t, PutPublish(k, v, b))), t);
    case PutPublish(k, v, b) =>
      assert StepPutPublish(s, Log(s.(heads := s.heads[s.slot(k) := b], npub := s.npub + 1,
        threads := Move(s, t, PutUnlock(k, v, true))),
                                   Linearize(t, Put(k, v), Done(true))), t);
    case PutUnlock(k, v, ok) => assert StepPutUnlock(s, s.(lock := None, threads := Move(s, t, PutReturn(k, v, ok))),
        t);
    case PutReturn(k, v, ok) => assert StepPutReturn(s,
        Log(s.(threads := Move(s, t, Idle)), Respond(t, Put(k, v), Done(ok))), t);
  }

  lemma FreeMoves(s: State, t: Tid)
    requires Safe(s, t) && s.threads[t].dying.Some?
    ensures CanStep(s, t)
  {
    hide Abs, Next;
    NextCases(s, t);
    var p := s.threads[t].dying.value;
    assert StepFree(s, s.(mem := s.mem - {p}, rc := s.rc - {p}, threads := Move(s, t, s.threads[t].pc)), t);
  }

  lemma WaitingStuck(s: State, t: Tid)
    requires Waiting(s, t)
    ensures !CanStep(s, t)
  {
    hide Abs, Loadable, Droppable;
  }

  lemma RunSafe(states: seq<State>, actors: seq<Tid>, n: nat, t: Tid)
    requires Run(states, actors) && n < |states| && t in states[n].threads
    ensures Safe(states[n], t)
  {
    hide Run, Loadable, Droppable, Holds;
    SafeAccess(states, actors, n, t);
    if states[n].threads[t].dying.Some? { FreedOnce(states, actors, n, t, states[n].threads[t].dying.value); }
  }

  // --- progress ---------------------------------------------------------------------------------------------

  // In every reachable state a thread can move unless it is waiting for the mutex.
  lemma OnlyMutexBlocks(states: seq<State>, actors: seq<Tid>, n: nat, t: Tid)
    requires Run(states, actors) && n < |states| && t in states[n].threads
    ensures CanStep(states[n], t) <==> !Waiting(states[n], t)
  {
    RunSafe(states, actors, n, t);
    hide Safe, CanStep, Run;
    var s := states[n];
    var pc := s.threads[t].pc;
    if s.threads[t].dying.Some? { FreeMoves(s, t); }
    else if Waiting(s, t) { WaitingStuck(s, t); }
    else if pc.Idle? || pc.GetHead? || pc.GetLoad? || pc.GetCompare? || pc.GetReload? || pc.GetRead?
        || pc.GetReturn? { GetMoves(s, t); }
    else if pc.PutLock? || pc.PutAlloc? || pc.PutHead? || pc.PutLoad? || pc.PutCompare? || pc.PutNew?
        || pc.PutWrite? { SearchMoves(s, t); }
    else { UpdateMoves(s, t); }
  }

  // Whenever a thread waits, the thread that holds the mutex can move.
  lemma HolderMoves(states: seq<State>, actors: seq<Tid>, n: nat, t: Tid)
    requires Run(states, actors) && n < |states| && Waiting(states[n], t)
    ensures var h := states[n].lock.value; h in states[n].threads && h != t && CanStep(states[n], h)
  {
    RunInv(states, actors, n);
    var h := states[n].lock.value;
    HolderCritical(states[n], h);
    hide Inv, CanStep, Run;
    OnlyMutexBlocks(states, actors, n, h);
  }

  lemma HolderCritical(s: State, h: Tid)
    requires Inv(s) && s.lock == Some(h)
    ensures h in s.threads && Critical(s.threads[h].pc)
  {
  }

  // --- bounded work -------------------------------------------------------------------------------------------

  // A bound on the steps a thread still takes before its operation is answered: three for every bucket
  // from the one it has reached down to the oldest (load, compare, free), and a few more.
  function Left(s: State, t: Tid): nat
    requires t in s.threads
  {
    (if s.threads[t].dying.Some? then 1 else 0) +
    match s.threads[t].pc
    case Idle => 0
    case GetHead(_) => 5 + 3 * s.npub
    case GetLoad(_, b, _) => 7 + 3 * b
    case GetCompare(_, b, _, _) => 6 + 3 * b
    case GetReload(_, _) => 4
    case GetRead(_, _, _) => 3
    case GetReturn(_, _) => 1
    case PutLock(_, _) => 11 + 3 * s.npub
    case PutAlloc(_, _) => 10 + 3 * s.npub
    case PutHead(_, _, _) => 9 + 3 * s.npub
    case PutLoad(_, _, _, b) => 10 + 3 * b
    case PutCompare(_, _, _, b, _) => 9 + 3 * b
    case PutNew(_, _, _) => 7
    case PutWrite(_, _, _, _, _) => 6
    case PutStore(_, _, _, _, _) => 5
    case PutDrop(_, _, _) => 4
    case PutLink(_, _, _) => 4
    case PutPublish(_, _, _) => 3
    case PutUnlock(_, _, _) => 2
    case PutReturn(_, _, _) => 1
  }

  // The first step of the operation, or taking the mutex, is still to come.
  predicate Starting(s: State, t: Tid) { t in s.threads && Begins(s.threads[t].pc) }

  // Next pointers lead to older buckets, and slot heads to published ones.
  lemma WalkFacts(s: State, t: Tid)
    requires Inv(s) && t in s.threads
    ensures var pc := s.threads[t].pc;
      pc.GetCompare? || pc.PutCompare? ==> pc.b < |s.links| && (s.links[pc.b].next.Some? ==> s.links[pc.b].next.value < pc.b)
    ensures forall h <- s.heads :: s.heads[h] < s.npub
  {
    hide Own, Locked, Keyed, Represents, Legal, Recorded, Reaches, Published, Has;
    var pc := s.threads[t].pc;
    if pc.GetCompare? || pc.PutCompare? { assert Local(s, pc) && Older(s.links, pc.b, s.slot); }
  }

  lemma GetWalkDescends(s: State, s': State, t: Tid)
    requires StepGetHead(s, s', t) || StepGetLoad(s, s', t)
    requires forall h <- s.heads :: s.heads[h] < s.npub
    ensures t in s'.threads && Left(s', t) < Left(s, t)
  {
    hide Abs, Loadable, Droppable;
  }

  lemma PutWalkDescends(s: State, s': State, t: Tid)
    requires StepPutLock(s, s', t) || StepPutHead(s, s', t) || StepPutLoad(s, s', t)
    requires forall h <- s.heads :: s.heads[h] < s.npub
    ensures t in s'.threads && Left(s', t) < Left(s, t)
  {
    hide Abs, Loadable, Droppable;
  }

  lemma GetCompareDescends(s: State, s': State, t: Tid)
    requires StepGetCompare(s, s', t)
    requires s.threads[t].pc.GetCompare? ==> var b := s.threads[t].pc.b;
      b < |s.links| && (s.links[b].next.Some? ==> s.links[b].next.value < b)
    ensures t in s'.threads && Left(s', t) < Left(s, t)
  {
    hide Abs, Loadable, Droppable;
  }

  lemma PutCompareDescends(s: State, s': State, t: Tid)
    requires StepPutCompare(s, s', t)
    requires s.threads[t].pc.PutCompare? ==> var b := s.threads[t].pc.b;
      b < |s.links| && (s.links[b].next.Some? ==> s.links[b].next.value < b)
    ensures t in s'.threads && Left(s', t) < Left(s, t)
  {
    hide Abs, Loadable, Droppable;
  }

  lemma GetEndDescends(s: State, s': State, t: Tid)
    requires StepGetReload(s, s', t) || StepGetRead(s, s', t) || StepGetReturn(s, s', t)
    ensures t in s'.threads && Left(s', t) < Left(s, t)
  {
    hide Abs, Loadable, Droppable;
  }

  lemma WriteDescends(s: State, s': State, t: Tid)
    requires StepPutNew(s, s', t) || StepPutWrite(s, s', t) || StepPutLink(s, s', t) || StepPutPublish(s, s', t)
    ensures t in s'.threads && Left(s', t) < Left(s, t)
  {
    hide Abs, Loadable, Droppable;
  }

  lemma PutEndDescends(s: State, s': State, t: Tid)
    requires StepPutDrop(s, s', t) || StepPutUnlock(s, s', t) || StepPutReturn(s, s', t) || StepFree(s, s', t)
    ensures t in s'.threads && Left(s', t) < Left(s, t)
  {
    hide Abs, Loadable, Droppable;
  }

  lemma StoreDescends(s: State, s': State, t: Tid)
    requires StepPutStore(s, s', t)
    ensures t in s'.threads && Left(s', t) < Left(s, t)
  {
    hide Abs;
  }

  lemma AllocDescends(s: State, s': State, t: Tid, a: Option<Addr>)
    requires StepPutAlloc(s, s', t, a)
    ensures t in s'.threads && Left(s', t) < Left(s, t)
  {
    hide Abs;
  }

  lemma NotCall(s: State, s': State, t: Tid, op: Op)
    requires StepCall(s, s', t, op)
    ensures Fresh(s, t)
  {
  }

  // Every step of an operation brings its end nearer.
  lemma OwnStepsDescend(s: State, s': State, t: Tid)
    requires Inv(s) && Next(s, s', t) && !Fresh(s, t)
    ensures t in s.threads && t in s'.threads && Left(s', t) < Left(s, t)
  {
    hide Inv, Left, StepCall, StepGetHead, StepGetLoad, StepGetCompare, StepGetReload, StepGetRead, StepGetReturn,
      StepPutLock,
      StepPutAlloc, StepPutHead, StepPutLoad, StepPutCompare, StepPutNew, StepPutWrite, StepPutStore, StepPutDrop,
          StepPutLink,
      StepPutPublish, StepPutUnlock, StepPutReturn, StepFree;
    StepFrame(s, s', t);
    WalkFacts(s, t);
    if op :| StepCall(s, s', t, op) { NotCall(s, s', t, op); }
    else if StepGetHead(s, s', t) || StepGetLoad(s, s', t) { GetWalkDescends(s, s', t); }
    else if StepPutLock(s, s', t) || StepPutHead(s, s', t) || StepPutLoad(s, s', t) { PutWalkDescends(s, s', t); }
    else if StepGetCompare(s, s', t) { GetCompareDescends(s, s', t); }
    else if StepPutCompare(s, s', t) { PutCompareDescends(s, s', t); }
    else if StepGetReload(s, s', t) || StepGetRead(s, s', t) || StepGetReturn(s, s', t) { GetEndDescends(s, s', t); }
    else if StepPutNew(s, s', t) || StepPutWrite(s, s', t)
      || StepPutLink(s, s', t) || StepPutPublish(s, s', t) { WriteDescends(s, s', t); }
    else if StepPutStore(s, s', t) { StoreDescends(s, s', t); }
    else if a :| StepPutAlloc(s, s', t, a) { AllocDescends(s, s', t, a); }
    else { PutEndDescends(s, s', t); }
  }

  lemma OthersDelayNobody(s: State, s': State, t: Tid, u: Tid)
    requires Inv(s) && Next(s, s', t) && u != t && u in s.threads && !Starting(s, u)
    ensures u in s'.threads && Left(s', u) == Left(s, u)
  {
    hide Next, LogBy, Fresh, Own, Chained, Keyed, Represents, Legal, Local, Recorded;
    StepFrame(s, s', t);
  }

  function Turns(actors: seq<Tid>, t: Tid): nat {
    if actors == [] then 0 else Turns(actors[..|actors| - 1], t) + if actors[|actors| - 1] == t then 1 else 0
  }

  // A get that has loaded the slot head, and a put that has the mutex, take no more than Left steps of
  // their own before they are answered, whatever the other threads do meanwhile. (The allocator's own
  // lock is inside the two steps that call it.)
  lemma {:induction false} BoundedSteps(states: seq<State>, actors: seq<Tid>, i: nat, j: nat, t: Tid)
    requires Run(states, actors) && i <= j < |states| && t in states[i].threads && !Starting(states[i], t)
    requires forall k :: i <= k < j ==> !Fresh(states[k], t)
    ensures t in states[j].threads && !Starting(states[j], t)
    ensures Turns(actors[i..j], t) + Left(states[j], t) <= Left(states[i], t)
    decreases j - i
  {
    hide *;
    RunLength(states, actors);
    if i == j {
      NoTurns(actors[i..j], t);
    } else {
      BoundedSteps(states, actors, i, j - 1, t);
      RunInv(states, actors, j - 1);
      RunStep(states, actors, j - 1);
      TurnsMore(actors, i, j, t);
      NeverStarting(states[j - 1], states[j], actors[j - 1], t);
      if actors[j - 1] == t {
        OwnStepsDescend(states[j - 1], states[j], t);
      } else {
        OthersDelayNobody(states[j - 1], states[j], actors[j - 1], t);
      }
    }
  }

  lemma NoTurns(actors: seq<Tid>, t: Tid)
    requires actors == []
    ensures Turns(actors, t) == 0
  {
  }

  lemma TurnsMore(actors: seq<Tid>, i: nat, j: nat, t: Tid)
    requires i < j <= |actors|
    ensures Turns(actors[i..j], t) == Turns(actors[i..j - 1], t) + if actors[j - 1] == t then 1 else 0
  {
    assert actors[i..j][..j - i - 1] == actors[i..j - 1];
  }

  // Only a call leads to the start of an operation.
  lemma NeverStarting(s: State, s': State, u: Tid, t: Tid)
    requires Next(s, s', u) && t in s.threads && !Starting(s, t) && !Fresh(s, t)
    ensures !Starting(s', t)
  {
    hide Next, LogBy, Fresh, Begins;
    StepFrame(s, s', u);
  }
}
