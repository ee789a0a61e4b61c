/** Directory listing within byte budgets: bounded lists, and the READDIRPLUS reply. */
module Paging {
  import opened Basics
  import opened Xdr
  import opened NfsTypes

  // ---- Lists within a byte budget ----

  /** `n` items are the longest prefix whose packed list fits, taking items one by one. */
  ghost predicate LongestFitting(item: Schema, entries: seq<Value>, max: nat, n: nat)
    requires AllOfType(item, entries)
  {
    && n <= |entries|
    && (n > 0 ==> ItemsSize(item, entries[..n]) <= max)
    && (n < |entries| ==> ItemsSize(item, entries[..n + 1]) > max)
  }

  lemma {:induction false} ItemsSizeAppend(item: Schema, items: seq<Value>, v: Value)
    requires AllOfType(item, items) && HasType(item, v) && AllOfType(item, items + [v])
    ensures ItemsSize(item, items + [v]) == ItemsSize(item, items) + 4 + PackedSize(item, v)
  {
    if items == [] {
      assert [v][1..] == [];
    } else {
      assert (items + [v])[1..] == items[1..] + [v];
      ItemsSizeAppend(item, items[1..], v);
    }
  }

  /** Prefixes of a list grow in size with their length. */
  lemma {:induction false} PrefixIsSmaller(item: Schema, entries: seq<Value>, i: nat, j: nat)
    requires AllOfType(item, entries) && i <= j <= |entries|
    ensures ItemsSize(item, entries[..i]) + 4 * (j - i) <= ItemsSize(item, entries[..j])
  {
    if i < j {
      PrefixIsSmaller(item, entries, i, j - 1);
      assert entries[..j] == entries[..j - 1] + [entries[j - 1]];
      ItemsSizeAppend(item, entries[..j - 1], entries[j - 1]);
    }
  }

  lemma LongestIsUnique(item: Schema, entries: seq<Value>, max: nat, m: nat, n: nat)
    requires AllOfType(item, entries) && LongestFitting(item, entries, max, m) && LongestFitting(item, entries, max, n)
    ensures m == n
  {
    if m < n { PrefixIsSmaller(item, entries, m + 1, n); }
    if n < m { PrefixIsSmaller(item, entries, n + 1, m); }
  }

  class BoundedList {
    const item: Schema
    const maxSize: nat
    var items: seq<Value>
    var currentSize: nat

    /** The running size is the packed size of the list. */
    ghost predicate Valid()
      reads this
    {
      AllOfType(item, items) && currentSize == ItemsSize(item, items)
    }

    constructor (item: Schema, maxSize: nat)
      ensures Valid() && items == [] && this.item == item && this.maxSize == maxSize
    {
      this.item := item;
      this.maxSize := maxSize;
      items := [];
      currentSize := 4;
    }

    method TryPush(v: Value) returns (pushed: bool)
      requires Valid() && HasType(item, v)
      modifies this
      ensures Valid()
      ensures AllOfType(item, old(items) + [v])
      ensures pushed <==> ItemsSize(item, old(items) + [v]) <= maxSize
      ensures items == if pushed then old(items) + [v] else old(items)
    {
      ItemsSizeAppend(item, items, v);
      var itemSize := PackedSize(item, v) + 4;
      if currentSize + itemSize > maxSize { return false; }
      items := items + [v];
      currentSize := currentSize + itemSize;
      pushed := true;
    }
  }

  // ---- READDIRPLUS: two budgets ----

  /** Bytes of directory information of one entry: id, name and cookie, without attributes and handle. */
  function DirBytes(v: Value): nat
    requires HasType(ENTRYPLUS3, v)
  {
    8 + 4 + PackedSize(FILENAME3, v.parts[1]) + 8
  }

  function TotalDirBytes(entries: seq<Value>): nat
    requires AllOfType(ENTRYPLUS3, entries)
  {
    if entries == [] then 0
    else
      var n := |entries| - 1;
      TotalDirBytes(entries[..n]) + DirBytes(entries[n])
  }

  /** An entry is admitted when both budgets admit it. */
  ghost predicate LongestFittingPlus(entries: seq<Value>, dircount: nat, max: nat, n: nat)
    requires AllOfType(ENTRYPLUS3, entries)
  {
    && n <= |entries|
    && TotalDirBytes(entries[..n]) <= dircount
    && (n > 0 ==> ItemsSize(ENTRYPLUS3, entries[..n]) <= max)
    && (n < |entries| ==> TotalDirBytes(entries[..n + 1]) > dircount || ItemsSize(ENTRYPLUS3, entries[..n + 1]) > max)
  }

  class BoundedEntryPlusList {
    const entries: BoundedList
    const dircount: nat
    var accumulatedDircount: nat

    ghost predicate Valid()
      reads this, entries
    {
      && entries.Valid() && entries.item == ENTRYPLUS3
      && accumulatedDircount == TotalDirBytes(entries.items) <= dircount
    }

    ghost predicate Admits(all: seq<Value>)
      requires AllOfType(ENTRYPLUS3, all)
      reads this
    {
      TotalDirBytes(all) <= dircount && ItemsSize(ENTRYPLUS3, all) <= entries.maxSize
    }

    constructor (dircount: nat, maxcount: nat)
      ensures Valid() && fresh(entries) && entries.items == []
      ensures this.dircount == dircount && entries.maxSize == maxcount
    {
      entries := new BoundedList(ENTRYPLUS3, maxcount);
      this.dircount := dircount;
      accumulatedDircount := 0;
    }

    method TryPush(v: Value) returns (pushed: bool)
      requires Valid() && HasType(ENTRYPLUS3, v)
      modifies this, entries
      ensures Valid() && AllOfType(ENTRYPLUS3, old(entries.items) + [v])
      ensures pushed <==> Admits(old(entries.items) + [v])
      ensures entries.items == if pushed then old(entries.items) + [v] else old(entries.items)
    {
      ghost var all := entries.items + [v];
      assert all[..|all| - 1] == entries.items;
      var added := DirBytes(v);
      if accumulatedDircount + added > dircount { return false; }
      pushed := entries.TryPush(v);
      if pushed { accumulatedDircount := accumulatedDircount + added; }
    }
  }

  lemma TotalDirBytesStep(entries: seq<Value>, i: nat)
    requires AllOfType(ENTRYPLUS3, entries) && i < |entries|
    ensures TotalDirBytes(entries[..i + 1]) == TotalDirBytes(entries[..i]) + DirBytes(entries[i])
  {
    assert entries[..i + 1][..i] == entries[..i];
  }

  /** Both budgets leave one length for a page. */
  lemma {:induction false} OnlyOneLength(entries: seq<Value>, dircount: nat, max: nat, m: nat, n: nat)
    requires AllOfType(ENTRYPLUS3, entries)
    requires LongestFittingPlus(entries, dircount, max, m) && LongestFittingPlus(entries, dircount, max, n) && m <= n
    ensures m == n
  {
    if m < n {
      PrefixIsSmaller(ENTRYPLUS3, entries, m + 1, n);
      DirBytesGrow(entries, m + 1, n);
    }
  }

  lemma {:induction false} DirBytesGrow(entries: seq<Value>, i: nat, j: nat)
    requires AllOfType(ENTRYPLUS3, entries) && i <= j <= |entries|
    ensures TotalDirBytes(entries[..i]) <= TotalDirBytes(entries[..j])
  {
    if i < j {
      DirBytesGrow(entries, i, j - 1);
      TotalDirBytesStep(entries, j - 1);
    }
  }
}
