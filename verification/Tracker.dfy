/**
 The retransmission tracker as a concurrent protocol. Each step is what one thread does under
 the locks it holds at once. Threads read the clock before they take a lock, so a step carries
 an instant `at` that may lie in the past.
 */
module Tracker {
  import opened Basics
  import opened ClientTable

  type Client = string
  type Ref = nat     // identifies one shared table
  type LockId = nat
  type Thread = nat

  datatype Slot = Slot(ref: Ref, table: Table)
  datatype Lock = Lock(ref: Ref, xid: U32)
  datatype Pending = Pending(client: Client, xid: U32, at: Instant)

  /** What became of the last accepted transaction of an xid. Not part of the tracker: it records
      the past so that the guarantee can be stated. */
  datatype Memory = Underway(id: LockId) | Finished(at: Instant)

  /** One client: its table if it is in the shared map, its transaction locks not yet dropped,
      and the memory. A table no longer in the map is seen by nobody but its own locks. */
  datatype ClientState = ClientState(slot: Option<Slot>, locks: map<LockId, Lock>, memory: map<U32, Memory>)

  datatype State = State(
    clock: Instant,
    nextRef: Ref,
    clients: map<Client, ClientState>,
    pending: map<Thread, Pending>) // threads that missed their client under the read lock
  {
    function Of(c: Client): ClientState {
      if c in clients then clients[c] else ClientState(None, map[], map[])
    }
  }

  datatype Step =
    | Tick(n: nat)
    | StartRead(client: Client, xid: U32, at: Instant, thread: Thread, id: LockId)
    | StartWrite(thread: Thread, id: LockId)
    | DropLock(client: Client, id: LockId, at: Instant)
    | CleanupClient(client: Client, at: Instant)

  const INITIAL: State := State(0, 0, map[], map[])

  // ---- What a step does to one client ----

  /** The xids that trimming made the table forget. */
  predicate Forgotten(xid: U32, before: seq<Tx>, after: seq<Tx>) {
    HasXid(before, xid) && !HasXid(after, xid)
  }

  function Start(c: ClientState, xid: U32, at: Instant, id: LockId, l: Limits): ClientState
    requires c.slot.Some?
  {
    var Slot(ref, table) := c.slot.value;
    var (t, r) := Add(table, xid, at, l);
    if r.Err? then c.(slot := Some(Slot(ref, t)))
    else
      ClientState(Some(Slot(ref, t)), c.locks[id := Lock(ref, xid)],
                  (map x | x in c.memory && !Forgotten(x, table.txs, t.txs) :: c.memory[x])[xid := Underway(id)])
  }

  /** The write-lock path looks the client up again and adds it only if it is still missing. */
  function Enter(c: ClientState, at: Instant, ref: Ref): ClientState {
    if c.slot.Some? then c else c.(slot := Some(Slot(ref, Table([], at, 0))))
  }

  /** A lock on a table that has left the map would change nothing anyone else sees. */
  function Drop(c: ClientState, id: LockId, at: Instant, l: Limits): ClientState
    requires id in c.locks
  {
    var Lock(ref, xid) := c.locks[id];
    var slot := if c.slot.Some? && c.slot.value.ref == ref
                then Some(Slot(ref, Finish(c.slot.value.table, xid, at, l))) else c.slot;
    ClientState(slot, c.locks - {id}, c.memory[xid := Finished(at)])
  }

  function Cleanup(c: ClientState, at: Instant, l: Limits): ClientState
    requires c.slot.Some?
  {
    var Slot(ref, t) := c.slot.value;
    if IsActive(t, at, l) then c.(slot := Some(Slot(ref, t.(txs := Pruned(t.txs, at, l.retention)))))
    else c.(slot := None)
  }

  function With(s: State, client: Client, c: ClientState): State {
    s.(clients := s.clients[client := c])
  }

  predicate LockUnused(s: State, id: LockId) {
    forall c :: c in s.clients ==> id !in s.clients[c].locks
  }

  ghost predicate Next(s: State, step: Step, s': State, l: Limits) {
    match step
    case Tick(n) => s' == s.(clock := s.clock + n)
    case StartRead(client, xid, at, thread, id) =>
      && at <= s.clock && thread !in s.pending && LockUnused(s, id)
      && s' == if s.Of(client).slot.Some? then With(s, client, Start(s.Of(client), xid, at, id, l))
               else s.(pending := s.pending[thread := Pending(client, xid, at)])
    case StartWrite(thread, id) =>
      && thread in s.pending && LockUnused(s, id)
      && var Pending(client, xid, at) := s.pending[thread];
         s' == With(s, client, Start(Enter(s.Of(client), at, s.nextRef), xid, at, id, l))
                 .(pending := s.pending - {thread}, nextRef := s.nextRef + 1)
    case DropLock(client, id, at) =>
      && at <= s.clock && id in s.Of(client).locks
      && s' == With(s, client, Drop(s.Of(client), id, at, l))
    case CleanupClient(client, at) =>
      && at <= s.clock && s.Of(client).slot.Some?
      && s' == With(s, client, Cleanup(s.Of(client), at, l))
  }

  // ---- The invariant ----

  /** The table is in order; a live lock refers to the table in the map; the transactions in
      progress there, those locked and those underway are the same, one lock each; and what
      finished within the retention period is still in the table. */
  ghost predicate Fine(c: ClientState, clock: Instant, l: Limits) {
    && (c.slot.Some? ==> TableOk(c.slot.value.table, l))
    && (forall i :: i in c.locks ==> c.slot.Some? && c.locks[i].ref == c.slot.value.ref)
    && (forall i :: i in c.locks ==> c.locks[i].xid in c.memory && c.memory[c.locks[i].xid] == Underway(i))
    && (forall x :: x in c.memory ==> Remembered(c, x, clock, l))
    && (c.slot.Some? ==>
          forall x :: Tx(x, InProgress) in c.slot.value.table.txs ==> x in c.memory && c.memory[x].Underway?)
  }

  ghost predicate Remembered(c: ClientState, x: U32, clock: Instant, l: Limits)
    requires x in c.memory
  {
    match c.memory[x]
    case Underway(i) =>
      i in c.locks && c.locks[i].xid == x && c.slot.Some? && Tx(x, InProgress) in c.slot.value.table.txs
    case Finished(t) =>
      Since(clock, t) <= l.retention ==> c.slot.Some? && Tx(x, Completed(t)) in c.slot.value.table.txs
  }

  ghost predicate Inv(s: State, l: Limits) {
    l.Valid() && forall c :: c in s.clients ==> Fine(s.clients[c], s.clock, l)
  }

  // ---- Every step keeps it ----

  lemma StartKeepsFine(c: ClientState, xid: U32, at: Instant, id: LockId, clock: Instant, l: Limits)
    requires l.Valid() && Fine(c, clock, l) && c.slot.Some? && id !in c.locks
    ensures Fine(Start(c, xid, at, id, l), clock, l)
  {
    var table := c.slot.value.table;
    AddKeeps(table, xid, at, l);
    var (t, r) := Add(table, xid, at, l);
    var c' := Start(c, xid, at, id, l);
    if r.Ok? {
      AcceptKeepsFine(c, c', table.txs, t.txs, xid, id, clock, l);
    } else {
      forall x | x in c'.memory ensures Remembered(c', x, clock, l) { assert Remembered(c, x, clock, l); }
    }
  }

  lemma AcceptKeepsFine(c: ClientState, c': ClientState, txs: seq<Tx>, txs': seq<Tx>, xid: U32, id: LockId,
                        clock: Instant, l: Limits)
    requires Fine(c, clock, l) && c.slot.Some? && c.slot.value.table.txs == txs && id !in c.locks
    requires c'.slot.Some? && c'.slot.value.ref == c.slot.value.ref && c'.slot.value.table.txs == txs'
    requires TableOk(c'.slot.value.table, l) && Tx(xid, InProgress) in txs'
    requires forall tx :: tx in txs' && tx != Tx(xid, InProgress) ==> tx in txs
    requires forall tx :: tx in txs && tx !in txs' ==> tx.state.Completed?
    requires c'.locks == c.locks[id := Lock(c.slot.value.ref, xid)]
    requires c'.memory == (map x | x in c.memory && !Forgotten(x, txs, txs') :: c.memory[x])[xid := Underway(id)]
    requires !HasXid(txs, xid)
    ensures Fine(c', clock, l)
  {
    forall x | x in c'.memory ensures Remembered(c', x, clock, l) {
      if x != xid {
        assert Remembered(c, x, clock, l);
        var tx := Tx(x, if c.memory[x].Underway? then InProgress else Completed(c.memory[x].at));
        if tx in txs { KeptUnlessForgotten(txs, txs', tx, xid); }
      }
    }
    forall x | Tx(x, InProgress) in txs' ensures x in c'.memory && c'.memory[x].Underway? {
      InHasXid(txs', Tx(x, InProgress));
    }
    forall i | i in c.locks ensures c.locks[i].xid != xid && c.locks[i].xid in c'.memory {
      assert Remembered(c, c.locks[i].xid, clock, l);
      InHasXid(txs, Tx(c.locks[i].xid, InProgress));
      InHasXid(txs', Tx(c.locks[i].xid, InProgress));
    }
  }

  lemma InHasXid(txs: seq<Tx>, tx: Tx)
    requires tx in txs
    ensures HasXid(txs, tx.xid)
  {
    var i :| 0 <= i < |txs| && txs[i] == tx;
  }

  lemma KeptUnlessForgotten(txs: seq<Tx>, txs': seq<Tx>, tx: Tx, xid: U32)
    requires Sorted(txs) && tx in txs && tx.xid != xid && !Forgotten(tx.xid, txs, txs')
    requires forall u :: u in txs' && u != Tx(xid, InProgress) ==> u in txs
    ensures tx in txs'
  {
    InHasXid(txs, tx);
    var j :| 0 <= j < |txs'| && txs'[j].xid == tx.xid;
    assert txs'[j] in txs';
  }

  lemma EnterKeepsFine(c: ClientState, at: Instant, ref: Ref, clock: Instant, l: Limits)
    requires Fine(c, clock, l)
    ensures Fine(Enter(c, at, ref), clock, l)
  {
    assert Running([]) == {};
    var c' := Enter(c, at, ref);
    forall x | x in c'.memory ensures Remembered(c', x, clock, l) { assert Remembered(c, x, clock, l); }
  }

  lemma DropKeepsFine(c: ClientState, id: LockId, at: Instant, clock: Instant, l: Limits)
    requires Fine(c, clock, l) && id in c.locks && at <= clock
    ensures Fine(Drop(c, id, at, l), clock, l)
    ensures Tx(c.locks[id].xid, InProgress) in c.slot.value.table.txs && c.slot.value.table.active > 0
  {
    var xid := c.locks[id].xid;
    assert Remembered(c, xid, clock, l);
    FinishKeeps(c.slot.value.table, xid, at, l);
    var c' := Drop(c, id, at, l);
    forall x | x in c'.memory ensures Remembered(c', x, clock, l) {
      if x != xid { assert Remembered(c, x, clock, l); }
    }
  }

  lemma CleanupKeepsFine(c: ClientState, at: Instant, clock: Instant, l: Limits)
    requires Fine(c, clock, l) && c.slot.Some? && at <= clock
    ensures Fine(Cleanup(c, at, l), clock, l)
  {
    var t := c.slot.value.table;
    PruneKeeps(t.txs, at, l.retention);
    var c' := Cleanup(c, at, l);
    if IsActive(t, at, l) {
      assert Running(c'.slot.value.table.txs) == Running(t.txs);
    }
    forall x | x in c.memory ensures Remembered(c', x, clock, l) {
      assert Remembered(c, x, clock, l);
    }
    forall i | i in c.locks ensures c'.slot.Some? { assert Remembered(c, c.locks[i].xid, clock, l); }
  }

  lemma TickKeepsFine(c: ClientState, clock: Instant, n: nat, l: Limits)
    requires Fine(c, clock, l)
    ensures Fine(c, clock + n, l)
  {
    forall x | x in c.memory ensures Remembered(c, x, clock + n, l) { assert Remembered(c, x, clock, l); }
  }

  lemma StepKeepsInv(s: State, step: Step, s': State, l: Limits)
    requires Inv(s, l) && Next(s, step, s', l)
    ensures Inv(s', l)
  {
    match step
    case Tick(n) =>
      forall c | c in s.clients ensures Fine(s.clients[c], s'.clock, l) { TickKeepsFine(s.clients[c], s.clock, n, l); }
    case StartRead(client, xid, at, thread, id) =>
      if s.Of(client).slot.Some? { StartKeepsFine(s.Of(client), xid, at, id, s.clock, l); }
    case StartWrite(thread, id) =>
      var Pending(client, xid, at) := s.pending[thread];
      EnterKeepsFine(s.Of(client), at, s.nextRef, s.clock, l);
      StartKeepsFine(Enter(s.Of(client), at, s.nextRef), xid, at, id, s.clock, l);
    case DropLock(client, id, at) => DropKeepsFine(s.Of(client), id, at, s.clock, l);
    case CleanupClient(client, at) => CleanupKeepsFine(s.Of(client), at, s.clock, l);
  }

  // ---- Runs ----

  ghost predicate Run(states: seq<State>, steps: seq<Step>, l: Limits) {
    && |states| == |steps| + 1 && states[0] == INITIAL && l.Valid()
    && forall i :: 0 <= i < |steps| ==> Next(states[i], steps[i], states[i + 1], l)
  }

  lemma {:induction false} RunKeepsInv(states: seq<State>, steps: seq<Step>, l: Limits, i: nat)
    requires Run(states, steps, l) && i < |states|
    ensures Inv(states[i], l)
  {
    if i > 0 {
      RunKeepsInv(states, steps, l, i - 1);
      StepKeepsInv(states[i - 1], steps[i - 1], states[i], l);
    }
  }

  /** In every reachable state, for every client: locks are one to a transaction and on the current
      table; the counter is the number of locks and of entries in progress, within bounds; and
      dropping a lock meets neither the failing assertion nor a counter underflow. */
  lemma LocksAndCounters(states: seq<State>, steps: seq<Step>, l: Limits, i: nat, client: Client)
    requires Run(states, steps, l) && i < |states|
    ensures var c := states[i].Of(client);
      && (forall a, b :: a in c.locks && b in c.locks && c.locks[a].xid == c.locks[b].xid ==> a == b)
      && (forall a :: a in c.locks ==>
            && c.slot.Some? && c.locks[a].ref == c.slot.value.ref
            && Tx(c.locks[a].xid, InProgress) in c.slot.value.table.txs && c.slot.value.table.active > 0)
      && (c.slot.Some? ==>
            && Sorted(c.slot.value.table.txs)
            && c.slot.value.table.active == |Running(c.slot.value.table.txs)| == |c.locks| <= l.maxActive)
  {
    RunKeepsInv(states, steps, l, i);
    var c := states[i].Of(client);
    forall a | a in c.locks ensures c.slot.Some? && Tx(c.locks[a].xid, InProgress) in c.slot.value.table.txs
      && c.slot.value.table.active > 0
    {
      DropKeepsFine(c, a, 0, states[i].clock, l);
    }
    if c.slot.Some? {
      forall tx | tx in Running(c.slot.value.table.txs) ensures tx == Tx(tx.xid, InProgress) {}
      forall tx | tx in Running(c.slot.value.table.txs) ensures exists a :: a in c.locks && c.locks[a].xid == tx.xid {
        assert Remembered(c, tx.xid, states[i].clock, l);
      }
      OneToOne(c.locks, Running(c.slot.value.table.txs));
    }
  }

  lemma {:induction false} OneToOne(locks: map<LockId, Lock>, running: set<Tx>)
    requires forall a :: a in locks ==> Tx(locks[a].xid, InProgress) in running
    requires forall a, b :: a in locks && b in locks && locks[a].xid == locks[b].xid ==> a == b
    requires forall tx :: tx in running ==> tx.state == InProgress && exists a :: a in locks && locks[a].xid == tx.xid
    ensures |locks| == |running|
    decreases |running|
  {
    if running == {} {
      assert locks == map[];
    } else {
      var tx :| tx in running;
      var a :| a in locks && locks[a].xid == tx.xid;
      forall b | b in locks - {a} ensures Tx(locks[b].xid, InProgress) in running - {tx} {}
      forall u | u in running - {tx} ensures exists b :: b in locks - {a} && (locks - {a})[b].xid == u.xid {
        var b :| b in locks && locks[b].xid == u.xid;
        assert b in locks - {a};
      }
      OneToOne(locks - {a}, running - {tx});
      assert (locks - {a}).Keys == locks.Keys - {a};
    }
  }

  // ---- At-most-once ----

  /** The answer to a start of the client's `xid` in this step, if there is one. A start that misses its
      client under the read lock is answered under the write lock. */
  function Answer(s: State, step: Step, client: Client, xid: U32, l: Limits): Option<Result<(), TxError>> {
    match step
    case StartRead(c, x, at, _, _) =>
      if c == client && x == xid && s.Of(c).slot.Some? then Some(Add(s.Of(c).slot.value.table, x, at, l).1) else None
    case StartWrite(thread, _) =>
      if thread in s.pending && s.pending[thread].client == client && s.pending[thread].xid == xid then
        var at := s.pending[thread].at;
        Some(Add(Enter(s.Of(client), at, s.nextRef).slot.value.table, xid, at, l).1)
      else None
    case _ => None
  }

  predicate Accepts(s: State, step: Step, client: Client, xid: U32, l: Limits) {
    Answer(s, step, client, xid, l) == Some(Ok(()))
  }

  /** The client's table grows past its limit in this step and `xid` is trimmed away. */
  ghost predicate Trims(s: State, step: Step, s': State, client: Client, xid: U32, l: Limits) {
    (exists x :: Accepts(s, step, client, x, l)) && s.Of(client).slot.Some? && s'.Of(client).slot.Some?
    && |s.Of(client).slot.value.table.txs| >= l.trimLimit
    && Forgotten(xid, s.Of(client).slot.value.table.txs, s'.Of(client).slot.value.table.txs)
  }

  /** The lock of the client's transaction `xid` is dropped in this step, at instant `at`. */
  predicate Finishes(s: State, step: Step, client: Client, xid: U32, at: Instant) {
    step.DropLock? && step.client == client && step.at == at
    && step.id in s.Of(client).locks && s.Of(client).locks[step.id].xid == xid
  }

  /** A transaction underway, or finished within the retention period, is taken for a retransmission,
      whichever path the second start takes and however busy the client is. */
  lemma ReplayIsRefused(s: State, step: Step, client: Client, xid: U32, l: Limits)
    requires Inv(s, l) && xid in s.Of(client).memory
    requires s.Of(client).memory[xid].Finished? ==> Since(s.clock, s.Of(client).memory[xid].at) <= l.retention
    ensures Answer(s, step, client, xid, l).Some? ==> Answer(s, step, client, xid, l) == Some(Err(AlreadyExists))
  {
    var c := s.Of(client);
    assert Remembered(c, xid, s.clock, l);
    var table := c.slot.value.table;
    InHasXid(table.txs, Tx(xid, if c.memory[xid].Underway? then InProgress else Completed(c.memory[xid].at)));
    FindIsMembership(table.txs, xid);
  }

  /** What a start of `x` does to the memory of `xid`. */
  lemma StartMemory(c: ClientState, x: U32, at: Instant, id: LockId, l: Limits, xid: U32)
    requires l.Valid() && c.slot.Some? && TableOk(c.slot.value.table, l)
    ensures var c' := Start(c, x, at, id, l);
            var txs, txs' := c.slot.value.table.txs, c'.slot.value.table.txs;
            var ok := Add(c.slot.value.table, x, at, l).1.Ok?;
      && (ok && x == xid ==> xid in c'.memory && c'.memory[xid].Underway?)
      && (xid in c.memory && !(ok && x == xid) ==>
            || (xid in c'.memory && c'.memory[xid] == c.memory[xid])
            || (ok && |txs| >= l.trimLimit && Forgotten(xid, txs, txs')))
  {
    NothingForgotten(c.slot.value.table, x, at, l, xid);
  }

  lemma NothingForgotten(t: Table, x: U32, at: Instant, l: Limits, xid: U32)
    requires l.Valid() && TableOk(t, l)
    ensures Forgotten(xid, t.txs, Add(t, x, at, l).0.txs) ==> Add(t, x, at, l).1.Ok? && |t.txs| >= l.trimLimit
  {
    AddKeeps(t, x, at, l);
    var txs' := Add(t, x, at, l).0.txs;
    if HasXid(t.txs, xid) && !HasXid(txs', xid) && Add(t, x, at, l).1.Ok? {
      var i :| 0 <= i < |t.txs| && t.txs[i].xid == xid;
      if t.txs[i] in txs' { InHasXid(txs', t.txs[i]); }
    }
  }

  /** One step of a key's memory: a new start of the key sets it; otherwise it stays, or the key is
      trimmed away, or its lock is dropped. */
  ghost predicate MemoryMoves(s: State, step: Step, s': State, client: Client, xid: U32, l: Limits) {
    var memory, memory' := s.Of(client).memory, s'.Of(client).memory;
    if Accepts(s, step, client, xid, l) then xid in memory' && memory'[xid].Underway?
    else xid in memory ==>
      || (xid in memory' && memory'[xid] == memory[xid])
      || Trims(s, step, s', client, xid, l)
      || (xid in memory' && memory'[xid].Finished? && Finishes(s, step, client, xid, memory'[xid].at))
  }

  lemma WriteStep(s: State, thread: Thread, id: LockId, s': State, client: Client, xid: U32, l: Limits)
    requires Inv(s, l) && Next(s, StartWrite(thread, id), s', l)
    ensures MemoryMoves(s, StartWrite(thread, id), s', client, xid, l)
  {
    var Pending(c, x, at) := s.pending[thread];
    if c != client {
      assert s'.Of(client) == s.Of(client);
    } else {
      var entered := Enter(s.Of(c), at, s.nextRef);
      EnterKeepsFine(s.Of(c), at, s.nextRef, s.clock, l);
      StartMemory(entered, x, at, id, l, xid);
      assert s'.Of(c) == Start(entered, x, at, id, l);
      assert Add(entered.slot.value.table, x, at, l).1.Ok? ==> Accepts(s, StartWrite(thread, id), c, x, l);
    }
  }

  lemma ReadStep(s: State, c: Client, x: U32, at: Instant, thread: Thread, id: LockId, s': State, client: Client,
                 xid: U32, l: Limits)
    requires Inv(s, l) && Next(s, StartRead(c, x, at, thread, id), s', l)
    ensures MemoryMoves(s, StartRead(c, x, at, thread, id), s', client, xid, l)
  {
    if s.Of(c).slot.Some? {
      StartMemory(s.Of(c), x, at, id, l, xid);
      assert Add(s.Of(c).slot.value.table, x, at, l).1.Ok? ==> Accepts(s, StartRead(c, x, at, thread, id), c, x, l);
    }
  }

  lemma MemoryStep(s: State, step: Step, s': State, client: Client, xid: U32, l: Limits)
    requires Inv(s, l) && Next(s, step, s', l)
    ensures MemoryMoves(s, step, s', client, xid, l)
  {
    match step
    case StartRead(c, x, at, thread, id) => ReadStep(s, c, x, at, thread, id, s', client, xid, l);
    case StartWrite(thread, id) => WriteStep(s, thread, id, s', client, xid, l);
    case _ =>
  }

  /** The tracker lets go of an xid between two steps: its entry is trimmed away because the table has grown past
      its limit, or its transaction finishes, and longer ago than the retention period. */
  ghost predicate LetGo(states: seq<State>, steps: seq<Step>, l: Limits, i: nat, j: nat, client: Client, xid: U32)
    requires |states| == |steps| + 1 && i < j < |steps|
  {
    || (exists m :: i < m < j && Trims(states[m], steps[m], states[m + 1], client, xid, l))
    || (exists m, t :: i < m < j && Finishes(states[m], steps[m], client, xid, t)
                       && Since(states[j].clock, t) > l.retention)
  }

  /** A start of an xid that has been accepted is taken for a retransmission, unless the tracker has let go of the
      xid in between. */
  lemma AtMostOnce(states: seq<State>, steps: seq<Step>, l: Limits, i: nat, j: nat, client: Client, xid: U32)
    requires Run(states, steps, l) && i < j < |steps|
    requires Accepts(states[i], steps[i], client, xid, l) && Answer(states[j], steps[j], client, xid, l).Some?
    ensures || Answer(states[j], steps[j], client, xid, l) == Some(Err(AlreadyExists))
            || LetGo(states, steps, l, i, j, client, xid)
  {
    forall m | 0 <= m < |steps| ensures MemoryMoves(states[m], steps[m], states[m + 1], client, xid, l) {
      RunKeepsInv(states, steps, l, m);
      MemoryStep(states[m], steps[m], states[m + 1], client, xid, l);
    }
    MemoryOfAccepted(states, steps, l, i, j, client, xid);
    RunKeepsInv(states, steps, l, j);
    if !(exists m :: i < m < j && Trims(states[m], steps[m], states[m + 1], client, xid, l)) {
      var memory := states[j].Of(client).memory[xid];
      if memory.Underway? || Since(states[j].clock, memory.at) <= l.retention {
        ReplayIsRefused(states[j], steps[j], client, xid, l);
      }
    }
  }

  /** How many of its transactions are in progress; of a client not in the map, none. */
  function ActiveOf(c: ClientState): nat {
    if c.slot.Some? then c.slot.value.table.active else 0
  }

  /** An xid that the client's table does not have is taken for a new one: accepted exactly when there is room. */
  lemma AbsentIsNew(s: State, step: Step, client: Client, xid: U32, l: Limits)
    requires Inv(s, l) && (s.Of(client).slot.Some? ==> !HasXid(s.Of(client).slot.value.table.txs, xid))
    requires Answer(s, step, client, xid, l).Some?
    ensures Answer(s, step, client, xid, l) != Some(Err(AlreadyExists))
    ensures Accepts(s, step, client, xid, l) <==> ActiveOf(s.Of(client)) < l.maxActive
  {
    if s.Of(client).slot.Some? { FindIsMembership(s.Of(client).slot.value.table.txs, xid); }
  }

  /** So it is right after its entry was trimmed away. */
  lemma TrimmedIsNew(s: State, step: Step, s': State, client: Client, xid: U32, next: Step, l: Limits)
    requires Inv(s, l) && Next(s, step, s', l)
    ensures Trims(s, step, s', client, xid, l) && Answer(s', next, client, xid, l).Some? ==>
              && s'.Of(client).slot.Some? && Answer(s', next, client, xid, l) != Some(Err(AlreadyExists))
              && (Accepts(s', next, client, xid, l) <==> s'.Of(client).slot.value.table.active < l.maxActive)
  {
    StepKeepsInv(s, step, s', l);
    if Trims(s, step, s', client, xid, l) && Answer(s', next, client, xid, l).Some? {
      AbsentIsNew(s', next, client, xid, l);
    }
  }

  /** The first `i + 1` entries of the client's table expired before `at`. */
  predicate ExpiredUpTo(c: ClientState, i: nat, at: Instant, l: Limits) {
    && c.slot.Some? && i < |c.slot.value.table.txs|
    && forall j :: 0 <= j <= i ==> Expired(c.slot.value.table.txs[j], at, l.retention)
  }

  /** The step looks for old entries of the client at instant `at`. */
  predicate Prunes(step: Step, client: Client, at: Instant) {
    step == CleanupClient(client, at) || (step.DropLock? && step.client == client && step.at == at)
  }

  /** When one of the client's locks is dropped, or the client is cleaned up, the xids of expired entries become new:
      such an xid is accepted exactly when there is room. */
  lemma ExpiredIsNew(s: State, step: Step, s': State, client: Client, at: Instant, i: nat, next: Step, l: Limits)
    requires Inv(s, l) && Next(s, step, s', l) && Prunes(step, client, at) && ExpiredUpTo(s.Of(client), i, at, l)
    ensures var xid := s.Of(client).slot.value.table.txs[i].xid;
            Answer(s', next, client, xid, l).Some? ==>
              && Answer(s', next, client, xid, l) != Some(Err(AlreadyExists))
              && (Accepts(s', next, client, xid, l) <==> ActiveOf(s'.Of(client)) < l.maxActive)
  {
    var xid := s.Of(client).slot.value.table.txs[i].xid;
    StepKeepsInv(s, step, s', l);
    ExpiredGoes(s, step, s', client, at, i, l);
    if Answer(s', next, client, xid, l).Some? { AbsentIsNew(s', next, client, xid, l); }
  }

  lemma ExpiredGoes(s: State, step: Step, s': State, client: Client, at: Instant, i: nat, l: Limits)
    requires Inv(s, l) && Next(s, step, s', l) && Prunes(step, client, at) && ExpiredUpTo(s.Of(client), i, at, l)
    ensures s'.Of(client).slot.Some? ==>
              !HasXid(s'.Of(client).slot.value.table.txs, s.Of(client).slot.value.table.txs[i].xid)
  {
    var c := s.Of(client);
    var t := c.slot.value.table;
    if step.DropLock? {
      assert Remembered(c, c.locks[step.id].xid, s.clock, l);
      FinishForgetsIff(t, c.locks[step.id].xid, at, l, i);
    } else {
      PruneForgetsIff(t.txs, at, l.retention, i);
      PruneKeeps(t.txs, at, l.retention);
      HasXidOf(t.txs, Pruned(t.txs, at, l.retention), i);
    }
  }

  /** Cleaning up takes a client out of the map exactly when its last start or end is a retention period ago and all
      its entries have expired. */
  lemma CleanupForgetsIff(s: State, s': State, client: Client, at: Instant, l: Limits)
    requires Next(s, CleanupClient(client, at), s', l)
    ensures var t := s.Of(client).slot.value.table;
            s'.Of(client).slot.None? <==>
              && (l.retention == 0 || at >= t.lastActive + l.retention)
              && forall j :: 0 <= j < |t.txs| ==> Expired(t.txs[j], at, l.retention)
  {}

  /** After an accepted start the key stays in memory, unless it is trimmed away. */
  lemma {:induction false} MemoryOfAccepted(states: seq<State>, steps: seq<Step>, l: Limits, i: nat, j: nat,
                                            client: Client, xid: U32)
    requires |states| == |steps| + 1
    requires forall m :: 0 <= m < |steps| ==> MemoryMoves(states[m], steps[m], states[m + 1], client, xid, l)
    requires i < j < |states| && Accepts(states[i], steps[i], client, xid, l)
    ensures || (exists m :: i < m < j && Trims(states[m], steps[m], states[m + 1], client, xid, l))
            || (xid in states[j].Of(client).memory &&
                (states[j].Of(client).memory[xid].Finished? ==>
                   var at := states[j].Of(client).memory[xid].at;
                   exists m :: i < m < j && Finishes(states[m], steps[m], client, xid, at)))
  {
    assert MemoryMoves(states[j - 1], steps[j - 1], states[j], client, xid, l);
    if j > i + 1 { MemoryOfAccepted(states, steps, l, i, j - 1, client, xid); }
  }
}
