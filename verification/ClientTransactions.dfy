/** One client's table as the server keeps it, updated in place under its lock. */
module ClientTransactions {
  import opened Basics
  import opened ClientTable

  class Transactions {
    var transactions: seq<Tx>
    var lastActive: Instant
    var activeTransactions: nat
    const limits: Limits

    ghost function Table(): Table
      reads this
    {
      ClientTable.Table(transactions, lastActive, activeTransactions)
    }

    ghost predicate Valid()
      reads this
    {
      limits.Valid() && TableOk(Table(), limits)
    }

    constructor (now: Instant, limits: Limits)
      requires limits.Valid()
      ensures Valid() && this.limits == limits && Table() == ClientTable.Table([], now, 0)
    {
      transactions, lastActive, activeTransactions := [], now, 0;
      this.limits := limits;
      new;
      assert Running([]) == {};
    }

    /** Looks at the last entry first and searches by halving otherwise. */
    method FindTransaction(xid: U32) returns (r: Result<nat, nat>)
      requires Sorted(transactions)
      ensures r == Find(transactions, xid)
    {
      var n := |transactions|;
      if n == 0 { return Err(0); }
      if transactions[n - 1].xid == xid {
        FindAt(transactions, xid, n - 1);
        return Ok(n - 1);
      }
      if transactions[n - 1].xid < xid {
        FindAt(transactions, xid, n);
        return Err(n);
      }
      r := BinarySearch(xid);
    }

    method BinarySearch(xid: U32) returns (r: Result<nat, nat>)
      requires Sorted(transactions)
      ensures r == Find(transactions, xid)
    {
      var lo, hi := 0, |transactions|;
      while lo < hi
        invariant 0 <= lo <= hi <= |transactions|
        invariant forall i :: 0 <= i < lo ==> transactions[i].xid < xid
        invariant forall i :: hi <= i < |transactions| ==> xid < transactions[i].xid
      {
        var mid := lo + (hi - lo) / 2;
        if transactions[mid].xid == xid {
          FindAt(transactions, xid, mid);
          return Ok(mid);
        } else if transactions[mid].xid < xid {
          lo := mid + 1;
        } else {
          hi := mid;
        }
      }
      FindAt(transactions, xid, lo);
      r := Err(lo);
    }

    method AddTransaction(xid: U32, now: Instant) returns (r: Result<(), TxError>)
      requires Valid()
      modifies this
      ensures Valid()
      ensures (Table(), r) == Add(old(Table()), xid, now, limits)
    {
      AddKeepsOrder(Table(), xid, now, limits);
      lastActive := now;
      var found := FindTransaction(xid);
      match found
      case Ok(_) => r := Err(AlreadyExists);
      case Err(p) =>
        if activeTransactions >= limits.maxActive { return Err(TooManyRequests); }
        activeTransactions := activeTransactions + 1;
        transactions := transactions[..p] + [Tx(xid, InProgress)] + transactions[p..];
        TrimIfNeeded();
        r := Ok(());
    }

    method TrimIfNeeded()
      modifies `transactions
      ensures transactions == Trimmed(old(transactions), limits.trimLimit)
    {
      while |transactions| > limits.trimLimit
        invariant Trimmed(transactions, limits.trimLimit) == Trimmed(old(transactions), limits.trimLimit)
        decreases |transactions|
      {
        if transactions[0].state.InProgress? { break; }
        transactions := transactions[1..];
      }
    }

    method RemoveOldTransactions(now: Instant)
      modifies `transactions
      ensures transactions == Pruned(old(transactions), now, limits.retention)
    {
      while |transactions| > 0
        invariant Pruned(transactions, now, limits.retention) == Pruned(old(transactions), now, limits.retention)
        decreases |transactions|
      {
        if !IsStale(transactions[0].state, now, limits.retention) { break; }
        transactions := transactions[1..];
      }
    }

    /** The source asserts that an entry to be completed is still in progress, and subtracts from
        an unsigned counter. */
    method CompleteTransaction(xid: U32, now: Instant)
      requires Sorted(transactions)
      requires Find(transactions, xid).Ok? ==>
                 transactions[Find(transactions, xid).value].state.InProgress? && activeTransactions > 0
      modifies this
      ensures lastActive == now
      ensures var found := Find(old(transactions), xid);
              if found.Ok? then
                && transactions == old(transactions)[found.value := Tx(xid, Completed(now))]
                && activeTransactions == old(activeTransactions) - 1
              else transactions == old(transactions) && activeTransactions == old(activeTransactions)
    {
      lastActive := now;
      var found := FindTransaction(xid);
      if found.Ok? {
        assert transactions[found.value].state.InProgress?;
        transactions := transactions[found.value := transactions[found.value].(state := Completed(now))];
        activeTransactions := activeTransactions - 1;
      }
    }

    /** What dropping a transaction lock does. The lock's entry is in progress. */
    method DropLock(xid: U32, now: Instant)
      requires Valid() && Tx(xid, InProgress) in transactions
      modifies this
      ensures Valid() && Table() == Finish(old(Table()), xid, now, limits)
    {
      FinishKeeps(Table(), xid, now, limits);
      FindIsMembership(transactions, xid);
      CompleteTransaction(xid, now);
      RemoveOldTransactions(now);
    }

    method HasActiveTransactions(now: Instant) returns (r: bool)
      ensures r <==> exists i :: 0 <= i < |transactions| && !IsStale(transactions[i].state, now, limits.retention)
    {
      for i := 0 to |transactions|
        invariant forall j :: 0 <= j < i ==> IsStale(transactions[j].state, now, limits.retention)
      {
        if !IsStale(transactions[i].state, now, limits.retention) { return true; }
      }
      r := false;
    }

    method IsActiveClient(now: Instant) returns (r: bool)
      ensures r == IsActive(Table(), now, limits)
    {
      if Since(now, lastActive) < limits.retention { return true; }
      r := HasActiveTransactions(now);
    }
  }
}
