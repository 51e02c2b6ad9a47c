// The hash table under concurrency: any number of threads run get and put in atomic steps
// (head load, payload load, payload store, head store, reference drop, lock, allocator calls),
// interleaved arbitrarily and sequentially consistently.
module ConcurrentTable {
  import opened Options

  type Key = string
  type Value = string
  type Addr = nat
  type Tid = nat

  // A bucket is split over two sequences: links[i] is its immutable part, payloads[i] its shared pointer.
  // The key is that of every payload the bucket ever holds; no step reads it.
  datatype Link = Link(key: Key, next: Option<nat>)

  // What a block handed out by the allocator holds.
  datatype Content = Raw | Pair(key: Key, value: Value)

  datatype Op = Get(key: Key) | Put(key: Key, value: Value)
  datatype Res = Found(v: Value) | Done(ok: bool)
  datatype Event = Invoke(t: Tid, op: Op) | Linearize(t: Tid, op: Op, res: Res) | Respond(t: Tid, op: Op, res: Res)

  // Where a thread is: about to perform the step named. a is the new block of a put, p a payload on
  // which the thread holds a reference, b the bucket it has reached. hit is bookkeeping for the proof:
  // whether the key was in the table when the head was loaded; no step reads it.
  datatype Pc =
    | Idle
    | GetHead(k: Key)
    | GetLoad(k: Key, b: nat, hit: bool)
    | GetCompare(k: Key, b: nat, p: Addr, hit: bool)
    | GetReload(k: Key, b: nat)
    | GetRead(k: Key, b: nat, p: Addr)
    | GetReturn(k: Key, r: Value)
    | PutLock(k: Key, v: Value)
    | PutAlloc(k: Key, v: Value)
    | PutHead(k: Key, v: Value, a: Addr)
    | PutLoad(k: Key, v: Value, a: Addr, b: nat)
    | PutCompare(k: Key, v: Value, a: Addr, b: nat, p: Addr)
    | PutNew(k: Key, v: Value, a: Addr)
    | PutWrite(k: Key, v: Value, a: Addr, b: nat, isNew: bool)
    | PutStore(k: Key, v: Value, a: Addr, b: nat, isNew: bool)
    | PutDrop(k: Key, v: Value, p: Addr)
    | PutLink(k: Key, v: Value, b: nat)
    | PutPublish(k: Key, v: Value, b: nat)
    | PutUnlock(k: Key, v: Value, ok: bool)
    | PutReturn(k: Key, v: Value, ok: bool)

  // dying is a block whose last reference this thread has dropped; its next step frees it.
  datatype Thread = Thread(pc: Pc, dying: Option<Addr>)

  datatype State = State(
    slot: Key -> nat,              // hash modulo table size
    heads: map<nat, nat>,          // slot -> first bucket; absent is the null pointer
    links: seq<Link>,
    payloads: seq<Option<Addr>>,
    npub: nat,                     // buckets below npub are published
    mem: map<Addr, Content>,       // blocks on the allocator's used list
    rc: map<Addr, nat>,            // reference counts of blocks owned by shared pointers
    lock: Option<Tid>,
    threads: map<Tid, Thread>,
    hist: seq<Event>)

  // --- steps -----------------------------------------------------------------------------------------

  // A string that survives being stored up to a NUL.
  predicate CString(s: string) { '\0' !in s }

  function Move(s: State, t: Tid, pc: Pc): map<Tid, Thread> { s.threads[t := Thread(pc, None)] }

  // Dropping a reference; the last one leaves the block for this thread to free.
  function DropRef(s: State, t: Tid, p: Addr, pc: Pc): State
    requires p in s.rc && s.rc[p] > 0
  {
    s.(rc := s.rc[p := s.rc[p] - 1],
       threads := s.threads[t := Thread(pc, if s.rc[p] == 1 then Some(p) else None)])
  }

  // Loading the payload pointer of a bucket takes a reference.
  function LoadRef(s: State, t: Tid, p: Addr, pc: Pc): State
    requires p in s.rc
  {
    s.(rc := s.rc[p := s.rc[p] + 1], threads := Move(s, t, pc))
  }

  function Log(s: State, e: Event): State { s.(hist := s.hist + [e]) }

  predicate Ready(s: State, t: Tid) { t in s.threads && s.threads[t].dying.None? }

  // Between two operations.
  predicate Fresh(s: State, t: Tid) { Ready(s, t) && s.threads[t].pc.Idle? }

  // About to take the first step of an operation.
  predicate Begins(pc: Pc) { pc.GetHead? || pc.PutLock? }

  predicate Loadable(s: State, b: nat) {
    b < |s.payloads| && b < |s.links| && s.payloads[b].Some? && s.payloads[b].value in s.rc
  }

  predicate Droppable(s: State, p: Addr) { p in s.rc && s.rc[p] > 0 && p in s.mem && s.mem[p].Pair? }

  // Where the walk goes after a mismatch at bucket b.
  function AfterGet(s: State, k: Key, b: nat, hit: bool): Pc
    requires b < |s.links|
  {
    if s.links[b].next.Some? then GetLoad(k, s.links[b].next.value, hit) else GetReturn(k, "")
  }

  function AfterPut(s: State, k: Key, v: Value, a: Addr, b: nat): Pc
    requires b < |s.links|
  {
    if s.links[b].next.Some? then PutLoad(k, v, a, s.links[b].next.value) else PutNew(k, v, a)
  }

  ghost predicate StepCall(s: State, s': State, t: Tid, op: Op) {
    && Fresh(s, t) && CString(op.key) && (op.Put? ==> CString(op.value))
    && s' == Log(s.(threads := Move(s, t, match op case Get(k) => GetHead(k) case Put(k, v) => PutLock(k, v))),
        Invoke(t, op))
  }

  // The atomic load of the slot head. A get that will miss takes effect here.
  ghost predicate StepGetHead(s: State, s': State, t: Tid) {
    && Ready(s, t) && s.threads[t].pc.GetHead?
    && var k := s.threads[t].pc.k;
      var hit := k in Abs(s.hist);
      var s1 := if s.slot(k) in s.heads then s.(threads := Move(s, t, GetLoad(k, s.heads[s.slot(k)], hit)))
                else s.(threads := Move(s, t, GetReturn(k, "")));
      s' == if hit then s1 else Log(s1, Linearize(t, Get(k), Found("")))
  }

  ghost predicate StepGetLoad(s: State, s': State, t: Tid) {
    && Ready(s, t) && s.threads[t].pc.GetLoad?
    && var pc := s.threads[t].pc;
      Loadable(s, pc.b) && s' == LoadRef(s, t, s.payloads[pc.b].value,
          GetCompare(pc.k, pc.b, s.payloads[pc.b].value, pc.hit))
  }

  ghost predicate StepGetCompare(s: State, s': State, t: Tid) {
    && Ready(s, t) && s.threads[t].pc.GetCompare?
    && var pc := s.threads[t].pc;
      Droppable(s, pc.p) && pc.b < |s.links|
      && s' == DropRef(s, t, pc.p, if s.mem[pc.p].key == pc.k then GetReload(pc.k, pc.b)
          else AfterGet(s, pc.k, pc.b, pc.hit))
  }

  // The second load, of the bucket that was found. A get that hits takes effect here.
  ghost predicate StepGetReload(s: State, s': State, t: Tid) {
    && Ready(s, t) && s.threads[t].pc.GetReload?
    && var pc := s.threads[t].pc;
      && Loadable(s, pc.b)
      && var p := s.payloads[pc.b].value;
        p in s.mem && s.mem[p].Pair?
        && s' == Log(LoadRef(s, t, p, GetRead(pc.k, pc.b, p)), Linearize(t, Get(pc.k), Found(s.mem[p].value)))
  }

  ghost predicate StepGetRead(s: State, s': State, t: Tid) {
    && Ready(s, t) && s.threads[t].pc.GetRead?
    && var pc := s.threads[t].pc;
      Droppable(s, pc.p) && s' == DropRef(s, t, pc.p, GetReturn(pc.k, s.mem[pc.p].value))
  }

  ghost predicate StepGetReturn(s: State, s': State, t: Tid) {
    && Ready(s, t) && s.threads[t].pc.GetReturn?
    && var pc := s.threads[t].pc;
      s' == Log(s.(threads := Move(s, t, Idle)), Respond(t, Get(pc.k), Found(pc.r)))
  }

  ghost predicate StepPutLock(s: State, s': State, t: Tid) {
    && Ready(s, t) && s.threads[t].pc.PutLock? && s.lock.None?
    && var pc := s.threads[t].pc;
      s' == s.(lock := Some(t), threads := Move(s, t, PutAlloc(pc.k, pc.v)))
  }

  // The allocator returns some block that is not in use, or fails; a failing put takes effect here.
  ghost predicate StepPutAlloc(s: State, s': State, t: Tid, a: Option<Addr>) {
    && Ready(s, t) && s.threads[t].pc.PutAlloc?
    && var pc := s.threads[t].pc;
      match a
      case Some(x) => x !in s.mem && s' == s.(mem := s.mem[x := Raw], threads := Move(s, t, PutHead(pc.k, pc.v, x)))
      case None => s' == Log(s.(threads := Move(s, t, PutUnlock(pc.k, pc.v, false))),
          Linearize(t, Put(pc.k, pc.v), Done(false)))
  }

  ghost predicate StepPutHead(s: State, s': State, t: Tid) {
    && Ready(s, t) && s.threads[t].pc.PutHead?
    && var pc := s.threads[t].pc;
      s' == s.(threads := Move(s, t, if s.slot(pc.k) in s.heads then PutLoad(pc.k, pc.v, pc.a, s.heads[s.slot(pc.k)])
                                     else PutNew(pc.k, pc.v, pc.a)))
  }

  ghost predicate StepPutLoad(s: State, s': State, t: Tid) {
    && Ready(s, t) && s.threads[t].pc.PutLoad?
    && var pc := s.threads[t].pc;
      Loadable(s, pc.b) && s' == LoadRef(s, t, s.payloads[pc.b].value,
          PutCompare(pc.k, pc.v, pc.a, pc.b, s.payloads[pc.b].value))
  }

  ghost predicate StepPutCompare(s: State, s': State, t: Tid) {
    && Ready(s, t) && s.threads[t].pc.PutCompare?
    && var pc := s.threads[t].pc;
      Droppable(s, pc.p) && pc.b < |s.links|
      && s' == DropRef(s, t, pc.p,
                 if s.mem[pc.p].key == pc.k then PutWrite(pc.k, pc.v, pc.a, pc.b, false)
                     else AfterPut(s, pc.k, pc.v, pc.a, pc.b))
  }

  // A new bucket at the end of the storage, not yet reachable.
  ghost predicate StepPutNew(s: State, s': State, t: Tid) {
    && Ready(s, t) && s.threads[t].pc.PutNew?
    && var pc := s.threads[t].pc;
      s' == s.(links := s.links + [Link(pc.k, None)], payloads := s.payloads + [None],
               threads := Move(s, t, PutWrite(pc.k, pc.v, pc.a, |s.links|, true)))
  }

  // The bytes of key and value are written to the private block.
  ghost predicate StepPutWrite(s: State, s': State, t: Tid) {
    && Ready(s, t) && s.threads[t].pc.PutWrite?
    && var pc := s.threads[t].pc;
      s' == s.(mem := s.mem[pc.a := Pair(pc.k, pc.v)],
          threads := Move(s, t, PutStore(pc.k, pc.v, pc.a, pc.b, pc.isNew)))
  }

  // The atomic store of the payload pointer. An overwriting put takes effect here and keeps the
  // reference the bucket had on the old payload.
  ghost predicate StepPutStore(s: State, s': State, t: Tid) {
    && Ready(s, t) && s.threads[t].pc.PutStore?
    && var pc := s.threads[t].pc;
      && pc.b < |s.payloads|
      && var s1 := s.(payloads := s.payloads[pc.b := Some(pc.a)], rc := s.rc[pc.a := 1]);
        match s.payloads[pc.b]
        case Some(p) =>
          s' == Log(s1.(threads := Move(s, t, PutDrop(pc.k, pc.v, p))), Linearize(t, Put(pc.k, pc.v), Done(true)))
        case None => s' == s1.(threads := Move(s, t, PutLink(pc.k, pc.v, pc.b)))
  }

  ghost predicate StepPutDrop(s: State, s': State, t: Tid) {
    && Ready(s, t) && s.threads[t].pc.PutDrop?
    && var pc := s.threads[t].pc;
      Droppable(s, pc.p) && s' == DropRef(s, t, pc.p, PutUnlock(pc.k, pc.v, true))
  }

  // store_bucket: first the next pointer of the private bucket ...
  ghost predicate StepPutLink(s: State, s': State, t: Tid) {
    && Ready(s, t) && s.threads[t].pc.PutLink?
    && var pc := s.threads[t].pc;
      && pc.b < |s.links|
      && var next := if s.slot(pc.k) in s.heads then Some(s.heads[s.slot(pc.k)]) else None;
        s' == s.(links := s.links[pc.b := s.links[pc.b].(next := next)],
            threads := Move(s, t, PutPublish(pc.k, pc.v, pc.b)))
  }

  // ... then the atomic store of the slot head. A put of a new key takes effect here.
  ghost predicate StepPutPublish(s: State, s': State, t: Tid) {
    && Ready(s, t) && s.threads[t].pc.PutPublish?
    && var pc := s.threads[t].pc;
      s' == Log(s.(heads := s.heads[s.slot(pc.k) := pc.b], npub := s.npub + 1,
          threads := Move(s, t, PutUnlock(pc.k, pc.v, true))),
                Linearize(t, Put(pc.k, pc.v), Done(true)))
  }

  ghost predicate StepPutUnlock(s: State, s': State, t: Tid) {
    && Ready(s, t) && s.threads[t].pc.PutUnlock?
    && var pc := s.threads[t].pc;
      s' == s.(lock := None, threads := Move(s, t, PutReturn(pc.k, pc.v, pc.ok)))
  }

  ghost predicate StepPutReturn(s: State, s': State, t: Tid) {
    && Ready(s, t) && s.threads[t].pc.PutReturn?
    && var pc := s.threads[t].pc;
      s' == Log(s.(threads := Move(s, t, Idle)), Respond(t, Put(pc.k, pc.v), Done(pc.ok)))
  }

  // The deleter of a shared pointer whose count reached zero: the block goes back to the allocator.
  ghost predicate StepFree(s: State, s': State, t: Tid) {
    && t in s.threads && s.threads[t].dying.Some?
    && var p := s.threads[t].dying.value;
      p in s.mem && s' == s.(mem := s.mem - {p}, rc := s.rc - {p}, threads := Move(s, t, s.threads[t].pc))
  }

  ghost predicate Next(s: State, s': State, t: Tid) {
    || (exists op :: StepCall(s, s', t, op))
    || StepGetHead(s, s', t) || StepGetLoad(s, s', t) || StepGetCompare(s, s', t) || StepGetReload(s, s', t)
    || StepGetRead(s, s', t) || StepGetReturn(s, s', t)
    || StepPutLock(s, s', t) || (exists a :: StepPutAlloc(s, s', t, a)) || StepPutHead(s, s', t)
        || StepPutLoad(s, s', t)
    || StepPutCompare(s, s', t) || StepPutNew(s, s', t) || StepPutWrite(s, s', t) || StepPutStore(s, s', t)
    || StepPutDrop(s, s', t) || StepPutLink(s, s', t) || StepPutPublish(s, s', t) || StepPutUnlock(s, s', t)
    || StepPutReturn(s, s', t) || StepFree(s, s', t)
  }

  ghost predicate Still(s: State) { forall t <- s.threads :: s.threads[t] == Thread(Idle, None) }

  // --- the sequential specification ----------------------------------------------------------------------

  // The finite map that the linearized operations build up.
  function Abs(h: seq<Event>): map<Key, Value> {
    if h == [] then map[]
    else
      var m, e := Abs(h[..|h| - 1]), h[|h| - 1];
      if e.Linearize? && e.op.Put? && e.res == Done(true) then m[e.op.key := e.op.value] else m
  }

  // What a map with contents m may answer.
  predicate Answers(m: map<Key, Value>, op: Op, res: Res) {
    match op
    case Get(k) => res == Found(if k in m then m[k] else "")
    case Put(_, _) => res.Done?
  }

  // Every linearization point gives the answer the sequential map would give at that moment.
  ghost predicate Legal(h: seq<Event>) {
    h == [] || (var p, e := h[..|h| - 1], h[|h| - 1]; Legal(p) && (e.Linearize? ==> Answers(Abs(p), e.op, e.res)))
  }

  // Where thread t stands in the history: each operation is invoked, linearized once, and answered
  // with the result it was linearized with.
  datatype Status = Quiet | Pending(op: Op) | Linearized(op: Op, res: Res) | Broken

  function Track(h: seq<Event>, t: Tid): Status {
    if h == [] then Quiet
    else
      var st, e := Track(h[..|h| - 1], t), h[|h| - 1];
      if e.t != t then st
      else match e
        case Invoke(_, op) => if st == Quiet then Pending(op) else Broken
        case Linearize(_, op, res) => if st == Pending(op) then Linearized(op, res) else Broken
        case Respond(_, op, res) => if st == Linearized(op, res) then Quiet else Broken
  }
}
