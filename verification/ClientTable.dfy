/** The transactions one client has started: a deque sorted by xid with an active counter. */
module ClientTable {
  import opened Basics

  type Instant = nat

  datatype TxState = InProgress | Completed(at: Instant)

  datatype Tx = Tx(xid: U32, state: TxState)

  datatype TxError = AlreadyExists | TooManyRequests

  datatype Limits = Limits(retention: nat, maxActive: nat, trimLimit: nat) {
    /** The constructor of a client's table asserts this. */
    predicate Valid() {
      maxActive < trimLimit && maxActive < 0x1_0000
    }
  }

  datatype Table = Table(txs: seq<Tx>, lastActive: Instant, active: nat)

  predicate IsStale(s: TxState, now: Instant, maxAge: nat) {
    s.Completed? && Since(now, s.at) > maxAge
  }

  predicate Sorted(txs: seq<Tx>) {
    forall i, j :: 0 <= i < j < |txs| ==> txs[i].xid < txs[j].xid
  }

  /** The position of `xid`, or where it would have to go, by looking at the entries in turn. */
  function Find(txs: seq<Tx>, xid: U32): (r: Result<nat, nat>)
    ensures r.Ok? ==> r.value < |txs| && txs[r.value].xid == xid
    ensures r.Err? ==> r.error <= |txs|
  {
    if txs == [] || txs[0].xid > xid then Err(0)
    else if txs[0].xid == xid then Ok(0)
    else match Find(txs[1..], xid)
      case Ok(i) => Ok(i + 1)
      case Err(i) => Err(i + 1)
  }

  lemma {:induction false} FindAt(txs: seq<Tx>, xid: U32, p: nat)
    requires Sorted(txs) && p <= |txs|
    requires forall i :: 0 <= i < p ==> txs[i].xid < xid
    requires p < |txs| ==> txs[p].xid >= xid
    ensures Find(txs, xid) == if p < |txs| && txs[p].xid == xid then Ok(p) else Err(p)
  {
    if p > 0 { FindAt(txs[1..], xid, p - 1); }
  }

  lemma {:induction false} FindErr(txs: seq<Tx>, xid: U32)
    requires Sorted(txs) && Find(txs, xid).Err?
    ensures var p := Find(txs, xid).error;
      && (forall i :: 0 <= i < p ==> txs[i].xid < xid)
      && (forall i :: p <= i < |txs| ==> xid < txs[i].xid)
  {
    if txs != [] && txs[0].xid < xid { FindErr(txs[1..], xid); }
  }

  // ---- What the operations compute ----

  /** Drops finished entries from the front while there are more than `limit`. */
  function Trimmed(txs: seq<Tx>, limit: nat): seq<Tx> {
    if |txs| > limit && txs[0].state.Completed? then Trimmed(txs[1..], limit) else txs
  }

  /** Drops stale entries from the front. */
  function Pruned(txs: seq<Tx>, now: Instant, maxAge: nat): seq<Tx> {
    if txs != [] && IsStale(txs[0].state, now, maxAge) then Pruned(txs[1..], now, maxAge) else txs
  }

  function Inserted(txs: seq<Tx>, p: nat, tx: Tx): seq<Tx>
    requires p <= |txs|
  {
    txs[..p] + [tx] + txs[p..]
  }

  function Add(t: Table, xid: U32, now: Instant, l: Limits): (Table, Result<(), TxError>) {
    match Find(t.txs, xid)
    case Ok(_) => (t.(lastActive := now), Err(AlreadyExists))
    case Err(p) =>
      if t.active >= l.maxActive then (t.(lastActive := now), Err(TooManyRequests))
      else (Table(Trimmed(Inserted(t.txs, p, Tx(xid, InProgress)), l.trimLimit), now, t.active + 1), Ok(()))
  }

  /** The end of a transaction: its entry is marked and stale entries go. */
  function Finish(t: Table, xid: U32, now: Instant, l: Limits): Table {
    match Find(t.txs, xid)
    case Err(_) => Table(Pruned(t.txs, now, l.retention), now, t.active)
    case Ok(p) =>
      var active := if t.active > 0 then t.active - 1 else 0;
      Table(Pruned(t.txs[p := Tx(xid, Completed(now))], now, l.retention), now, active)
  }

  predicate IsActive(t: Table, now: Instant, l: Limits) {
    Since(now, t.lastActive) < l.retention || exists i :: 0 <= i < |t.txs| && !IsStale(t.txs[i].state, now, l.retention)
  }

  // ---- What stays and what goes ----

  predicate HasXid(txs: seq<Tx>, xid: U32) {
    exists i :: 0 <= i < |txs| && txs[i].xid == xid
  }

  /** The search agrees with looking through the whole table. */
  lemma FindIsMembership(txs: seq<Tx>, xid: U32)
    requires Sorted(txs)
    ensures Find(txs, xid).Ok? <==> HasXid(txs, xid)
  {
    if Find(txs, xid).Err? { FindErr(txs, xid); }
  }

  lemma InsertKeeps(txs: seq<Tx>, xid: U32, s: TxState)
    requires Sorted(txs) && Find(txs, xid).Err?
    ensures var txs' := Inserted(txs, Find(txs, xid).error, Tx(xid, s));
            Sorted(txs') && forall tx :: tx in txs' <==> tx in txs || tx == Tx(xid, s)
  {
    FindErr(txs, xid);
  }

  lemma {:induction false} TrimmedIsDrop(txs: seq<Tx>, limit: nat) returns (n: nat)
    ensures n <= |txs| && Trimmed(txs, limit) == txs[n..]
    ensures forall i :: 0 <= i < n ==> txs[i].state.Completed?
    ensures n > 0 ==> |txs| - n >= limit
    ensures n < |txs| && |txs| - n > limit ==> txs[n].state.InProgress?
    decreases |txs|
  {
    n := 0;
    if |txs| > limit && txs[0].state.Completed? {
      n := TrimmedIsDrop(txs[1..], limit);
      n := n + 1;
      assert txs[1..][n - 1..] == txs[n..];
    }
  }

  lemma {:induction false} PrunedIsDrop(txs: seq<Tx>, now: Instant, maxAge: nat) returns (n: nat)
    ensures n <= |txs| && Pruned(txs, now, maxAge) == txs[n..]
    ensures forall i :: 0 <= i < n ==> IsStale(txs[i].state, now, maxAge)
    ensures n < |txs| ==> !IsStale(txs[n].state, now, maxAge)
    decreases |txs|
  {
    n := 0;
    if txs != [] && IsStale(txs[0].state, now, maxAge) {
      n := PrunedIsDrop(txs[1..], now, maxAge);
      n := n + 1;
      assert txs[1..][n - 1..] == txs[n..];
    }
  }

  /** Exactly which entry trimming forgets: one whose predecessors are all finished, as it is, and
      that is not among the last `limit`. */
  lemma TrimForgetsIff(txs: seq<Tx>, limit: nat, i: nat)
    requires Sorted(txs) && i < |txs|
    ensures txs[i] !in Trimmed(txs, limit) <==>
            i + limit < |txs| && forall j :: 0 <= j <= i ==> txs[j].state.Completed?
  {
    var n := TrimmedIsDrop(txs, limit);
    if n <= i { assert txs[n..][i - n] == txs[i]; }
  }

  /** Trimming drops finished entries only, and none while the table is within the limit. */
  lemma TrimKeeps(txs: seq<Tx>, limit: nat)
    requires Sorted(txs)
    ensures var txs' := Trimmed(txs, limit);
      && Sorted(txs')
      && (forall tx :: tx in txs' ==> tx in txs)
      && (forall tx :: tx in txs && tx !in txs' ==> tx.state.Completed?)
      && (|txs| <= limit ==> txs' == txs)
  {
    var n := TrimmedIsDrop(txs, limit);
    assert txs == txs[..n] + txs[n..];
  }

  /** Finished longer ago than the maximal age. */
  predicate Expired(tx: Tx, now: Instant, maxAge: nat) {
    tx.state.Completed? && now > tx.state.at + maxAge
  }

  /** Exactly which entry pruning forgets: one that has expired, as all its predecessors have. */
  lemma PruneForgetsIff(txs: seq<Tx>, now: Instant, maxAge: nat, i: nat)
    requires Sorted(txs) && i < |txs|
    ensures txs[i] !in Pruned(txs, now, maxAge) <==> forall j :: 0 <= j <= i ==> Expired(txs[j], now, maxAge)
  {
    var n := PrunedIsDrop(txs, now, maxAge);
    if n <= i { assert txs[n..][i - n] == txs[i]; }
  }

  lemma PruneKeeps(txs: seq<Tx>, now: Instant, maxAge: nat)
    requires Sorted(txs)
    ensures var txs' := Pruned(txs, now, maxAge);
      && Sorted(txs')
      && (forall tx :: tx in txs' ==> tx in txs)
      && (forall tx :: tx in txs && tx !in txs' ==> IsStale(tx.state, now, maxAge))
  {
    var n := PrunedIsDrop(txs, now, maxAge);
    assert txs == txs[..n] + txs[n..];
  }

  function Running(txs: seq<Tx>): set<Tx> {
    set tx | tx in txs && tx.state.InProgress?
  }

  /** A table in order, with as many running transactions as its counter says. */
  ghost predicate TableOk(t: Table, l: Limits) {
    Sorted(t.txs) && t.active == |Running(t.txs)| <= l.maxActive
  }

  lemma AddKeeps(t: Table, xid: U32, now: Instant, l: Limits)
    requires TableOk(t, l) && l.Valid()
    ensures var (t', r) := Add(t, xid, now, l);
      && TableOk(t', l) && t'.lastActive == now
      && (r == Err(AlreadyExists) <==> HasXid(t.txs, xid))
      && (r.Ok? <==> !HasXid(t.txs, xid) && t.active < l.maxActive)
      && (r.Err? ==> t'.txs == t.txs)
      && (r.Ok? ==>
            && Tx(xid, InProgress) in t'.txs
            && (forall tx :: tx in t'.txs && tx != Tx(xid, InProgress) ==> tx in t.txs)
            && (forall tx :: tx in t.txs && tx !in t'.txs ==> tx.state.Completed?)
            && Running(t'.txs) == Running(t.txs) + {Tx(xid, InProgress)}
            && (|t.txs| < l.trimLimit ==> forall tx :: tx in t.txs ==> tx in t'.txs))
  {
    FindIsMembership(t.txs, xid);
    if Add(t, xid, now, l).1.Ok? { NewEntry(t.txs, xid, l.trimLimit); }
  }

  lemma AddKeepsOrder(t: Table, xid: U32, now: Instant, l: Limits)
    requires TableOk(t, l) && l.Valid()
    ensures TableOk(Add(t, xid, now, l).0, l)
  {
    AddKeeps(t, xid, now, l);
  }

  lemma NewEntry(txs: seq<Tx>, xid: U32, limit: nat)
    requires Sorted(txs) && Find(txs, xid).Err? && limit > 0
    ensures var added := Tx(xid, InProgress);
            var txs' := Trimmed(Inserted(txs, Find(txs, xid).error, added), limit);
      && Sorted(txs') && added in txs' && added !in txs
      && (forall tx :: tx in txs' && tx != added ==> tx in txs)
      && (forall tx :: tx in txs && tx !in txs' ==> tx.state.Completed?)
      && Running(txs') == Running(txs) + {added} && |Running(txs')| == |Running(txs)| + 1
      && (|txs| < limit ==> forall tx :: tx in txs ==> tx in txs')
  {
    var added := Tx(xid, InProgress);
    FindIsMembership(txs, xid);
    InsertKeeps(txs, xid, InProgress);
    var txs1 := Inserted(txs, Find(txs, xid).error, added);
    assert |txs1| == |txs| + 1;
    TrimKeeps(txs1, limit);
    assert added !in Running(txs);
    assert Running(Trimmed(txs1, limit)) == Running(txs) + {added};
  }

  lemma FinishKeeps(t: Table, xid: U32, now: Instant, l: Limits)
    requires TableOk(t, l) && Tx(xid, InProgress) in t.txs
    ensures var t' := Finish(t, xid, now, l);
      && TableOk(t', l) && t.active > 0 && t'.lastActive == now
      && (forall tx :: tx in t'.txs ==> tx in t.txs || tx == Tx(xid, Completed(now)))
      && (forall tx :: tx in t.txs && tx.xid != xid && tx !in t'.txs ==> IsStale(tx.state, now, l.retention))
      && Tx(xid, Completed(now)) in t'.txs
      && Tx(xid, InProgress) !in t'.txs
      && Running(t'.txs) == Running(t.txs) - {Tx(xid, InProgress)}
  {
    FindIsMembership(t.txs, xid);
    var p := Find(t.txs, xid).value;
    MarkKeeps(t.txs, p, Tx(xid, Completed(now)));
    PruneKeeps(t.txs[p := Tx(xid, Completed(now))], now, l.retention);
    assert Running(Finish(t, xid, now, l).txs) == Running(t.txs) - {Tx(xid, InProgress)};
  }

  /** Exactly which other entry the end of a transaction forgets. */
  lemma FinishForgetsIff(t: Table, xid: U32, now: Instant, l: Limits, i: nat)
    requires Sorted(t.txs) && Tx(xid, InProgress) in t.txs && i < |t.txs| && t.txs[i].xid != xid
    ensures HasXid(Finish(t, xid, now, l).txs, t.txs[i].xid)
       <==> !forall j :: 0 <= j <= i ==> Expired(t.txs[j], now, l.retention)
  {
    FindIsMembership(t.txs, xid);
    var p, done := Find(t.txs, xid).value, Tx(xid, Completed(now));
    MarkKeeps(t.txs, p, done);
    var txs := t.txs[p := done];
    PruneForgetsIff(txs, now, l.retention, i);
    PruneKeeps(txs, now, l.retention);
    HasXidOf(txs, Pruned(txs, now, l.retention), i);
  }

  /** Among entries that are in the table, one is there exactly when its xid is. */
  lemma HasXidOf(txs: seq<Tx>, kept: seq<Tx>, i: nat)
    requires Sorted(txs) && i < |txs| && forall tx :: tx in kept ==> tx in txs
    ensures HasXid(kept, txs[i].xid) <==> txs[i] in kept
  {
    if HasXid(kept, txs[i].xid) {
      var k :| 0 <= k < |kept| && kept[k].xid == txs[i].xid;
      assert kept[k] in txs;
    }
  }

  /** An entry is marked in place. */
  lemma MarkKeeps(txs: seq<Tx>, p: nat, done: Tx)
    requires Sorted(txs) && p < |txs| && done.xid == txs[p].xid
    ensures Sorted(txs[p := done])
    ensures forall tx :: tx in txs[p := done] <==> tx == done || (tx in txs && tx.xid != done.xid)
  {
    var txs1 := txs[p := done];
    forall i | 0 <= i < |txs| && i != p ensures txs1[i] == txs[i] && txs[i].xid != done.xid {}
    assert txs1[p] == done;
  }
}
