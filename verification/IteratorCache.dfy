/** Directory streams that wait to be continued, by directory and cookie. */
module IteratorCache {
  import opened Basics
  import opened Tree

  /** An open directory stream: which listing it was opened for, what it yields, and how far it is. */
  datatype ReadDir = ReadDir(listing: nat, names: seq<Name>, pos: nat)

  datatype Slot = Slot(cookie: nat, cachedAt: nat, readDir: ReadDir)

  function Base(counter: U32): U64 {
    counter * 0x1_0000_0000
  }

  // ---- Taking out ----

  /** The first slot with this cookie, or the length when there is none. */
  function Position(slots: seq<Slot>, cookie: nat): (i: nat)
    ensures i <= |slots| && (i < |slots| ==> slots[i].cookie == cookie)
    ensures forall j :: 0 <= j < i ==> slots[j].cookie != cookie
  {
    if slots == [] || slots[0].cookie == cookie then 0 else 1 + Position(slots[1..], cookie)
  }

  /** The last slot takes the place of the removed one. */
  function SwapRemove(slots: seq<Slot>, i: nat): seq<Slot>
    requires i < |slots|
  {
    var last := |slots| - 1;
    if i == last then slots[..last] else slots[..last][i := slots[last]]
  }

  lemma SwapRemoveTakesOne(slots: seq<Slot>, i: nat)
    requires i < |slots|
    ensures multiset(SwapRemove(slots, i)) == multiset(slots) - multiset{slots[i]}
  {
    var last := |slots| - 1;
    assert slots == slots[..last] + [slots[last]];
  }

  lemma SwapRemoveAt(slots: seq<Slot>, i: nat, j: nat)
    requires i < |slots| && j < |slots| - 1
    ensures |SwapRemove(slots, i)| == |slots| - 1
    ensures SwapRemove(slots, i)[j] == slots[if j == i then |slots| - 1 else j]
  {}

  // ---- Trimming ----

  /** A stable insertion: after every slot that is not younger. */
  function Insert(sorted: seq<Slot>, slot: Slot): seq<Slot> {
    var last := |sorted| - 1;
    if sorted == [] || sorted[last].cachedAt <= slot.cachedAt then sorted + [slot]
    else Insert(sorted[..last], slot) + [sorted[last]]
  }

  function ByTime(slots: seq<Slot>): seq<Slot> {
    if slots == [] then [] else Insert(ByTime(slots[..|slots| - 1]), slots[|slots| - 1])
  }

  predicate InOrder(slots: seq<Slot>) {
    forall i, j :: 0 <= i < j < |slots| ==> slots[i].cachedAt <= slots[j].cachedAt
  }

  lemma {:induction false} InsertSorts(sorted: seq<Slot>, slot: Slot)
    requires InOrder(sorted)
    ensures InOrder(Insert(sorted, slot)) && multiset(Insert(sorted, slot)) == multiset(sorted) + multiset{slot}
    ensures |Insert(sorted, slot)| == |sorted| + 1
  {
    var last := |sorted| - 1;
    if sorted != [] && sorted[last].cachedAt > slot.cachedAt {
      InsertSorts(sorted[..last], slot);
      assert sorted == sorted[..last] + [sorted[last]];
      StaysBelow(Insert(sorted[..last], slot), sorted[..last], slot, sorted[last].cachedAt);
    }
  }

  lemma StaysBelow(all: seq<Slot>, slots: seq<Slot>, slot: Slot, bound: nat)
    requires multiset(all) == multiset(slots) + multiset{slot}
    requires slot.cachedAt <= bound && forall k :: 0 <= k < |slots| ==> slots[k].cachedAt <= bound
    ensures forall k :: 0 <= k < |all| ==> all[k].cachedAt <= bound
  {
    forall k | 0 <= k < |all| ensures all[k].cachedAt <= bound {
      assert all[k] in multiset(all);
    }
  }

  lemma {:induction false} ByTimeSorts(slots: seq<Slot>)
    ensures InOrder(ByTime(slots)) && multiset(ByTime(slots)) == multiset(slots) && |ByTime(slots)| == |slots|
  {
    if slots != [] {
      var last := |slots| - 1;
      ByTimeSorts(slots[..last]);
      InsertSorts(ByTime(slots[..last]), slots[last]);
      assert slots == slots[..last] + [slots[last]];
    }
  }

  /** The slots cached at one instant, in their order. */
  function AtTime(slots: seq<Slot>, t: nat): seq<Slot> {
    if slots == [] then []
    else
      var last := |slots| - 1;
      AtTime(slots[..last], t) + if slots[last].cachedAt == t then [slots[last]] else []
  }

  lemma OneMoreAtTime(slots: seq<Slot>, slot: Slot, t: nat)
    ensures AtTime(slots + [slot], t) == AtTime(slots, t) + if slot.cachedAt == t then [slot] else []
  {
    assert (slots + [slot])[..|slots|] == slots;
  }

  lemma {:induction false} InsertIsStable(sorted: seq<Slot>, slot: Slot, t: nat)
    ensures AtTime(Insert(sorted, slot), t) == AtTime(sorted + [slot], t)
  {
    var last := |sorted| - 1;
    if sorted != [] && sorted[last].cachedAt > slot.cachedAt {
      InsertIsStable(sorted[..last], slot, t);
      OneMoreAtTime(Insert(sorted[..last], slot), sorted[last], t);
      OneMoreAtTime(sorted[..last], slot, t);
      OneMoreAtTime(sorted, slot, t);
    }
  }

  /** Sorting leaves slots of one instant in their order. */
  lemma {:induction false} ByTimeIsStable(slots: seq<Slot>, t: nat)
    ensures AtTime(ByTime(slots), t) == AtTime(slots, t)
  {
    if slots != [] {
      var last := |slots| - 1;
      ByTimeIsStable(slots[..last], t);
      InsertIsStable(ByTime(slots[..last]), slots[last], t);
      OneMoreAtTime(ByTime(slots[..last]), slots[last], t);
    }
  }

  /** The youngest `max` slots. */
  function Trimmed(slots: seq<Slot>, max: nat): seq<Slot> {
    if |slots| > max then
      ByTimeSorts(slots);
      ByTime(slots)[|slots| - max..]
    else slots
  }

  /** Trimming drops the fewest slots that leave no more than `max`, and none that is younger than one it keeps. */
  lemma TrimDropsOldest(slots: seq<Slot>, max: nat) returns (dropped: seq<Slot>)
    ensures |Trimmed(slots, max)| == if |slots| > max then max else |slots|
    ensures multiset(slots) == multiset(dropped) + multiset(Trimmed(slots, max))
    ensures forall d, k :: d in dropped && k in Trimmed(slots, max) ==> d.cachedAt <= k.cachedAt
    ensures |slots| <= max ==> Trimmed(slots, max) == slots
  {
    dropped := [];
    if |slots| > max {
      ByTimeSorts(slots);
      var n := |slots| - max;
      dropped := ByTime(slots)[..n];
      assert ByTime(slots) == dropped + ByTime(slots)[n..];
    }
  }

  /** If there are more, trimming sorts them by time, and leaves those of one instant in their order. */
  lemma TrimSorts(slots: seq<Slot>, max: nat, t: nat) returns (dropped: seq<Slot>)
    requires |slots| > max
    ensures InOrder(dropped + Trimmed(slots, max)) && AtTime(dropped + Trimmed(slots, max), t) == AtTime(slots, t)
  {
    ByTimeSorts(slots);
    ByTimeIsStable(slots, t);
    dropped := FrontOf(ByTime(slots), Trimmed(slots, max), |slots| - max);
  }

  lemma FrontOf(all: seq<Slot>, back: seq<Slot>, n: nat) returns (front: seq<Slot>)
    requires n <= |all| && back == all[n..]
    ensures front + back == all
  {
    front := all[..n];
  }

  // ---- Cleaning up ----

  function Retained(slots: seq<Slot>, now: nat, retention: nat): seq<Slot> {
    if slots == [] then []
    else
      var last := |slots| - 1;
      var kept := if Since(now, slots[last].cachedAt) <= retention then [slots[last]] else [];
      Retained(slots[..last], now, retention) + kept
  }

  /** Exactly the slots that are young enough stay, as often as they were there. */
  lemma {:induction false} RetainedKeepsYoung(slots: seq<Slot>, now: nat, retention: nat)
    ensures forall x :: multiset(Retained(slots, now, retention))[x]
                     == if Since(now, x.cachedAt) <= retention then multiset(slots)[x] else 0
  {
    if slots != [] {
      var last := |slots| - 1;
      RetainedKeepsYoung(slots[..last], now, retention);
      assert slots == slots[..last] + [slots[last]];
    }
  }

  /** They stay in their order: slots are judged one by one. */
  lemma {:induction false} RetainedInOrder(slots: seq<Slot>, x: Slot, now: nat, retention: nat)
    ensures Retained([], now, retention) == []
    ensures Retained(slots + [x], now, retention)
         == Retained(slots, now, retention) + if now <= x.cachedAt + retention then [x] else []
  {
    assert (slots + [x])[..|slots|] == slots;
  }

  type Slots = map<Id, seq<Slot>>

  function At(cache: Slots, dir: Id): seq<Slot> {
    if dir in cache then cache[dir] else []
  }

  function Put(cache: Slots, dir: Id, slot: Slot, max: nat): Slots {
    cache[dir := Trimmed(At(cache, dir) + [slot], max)]
  }

  function Cleaned(cache: Slots, now: nat, retention: nat): Slots {
    map d | d in cache && Retained(cache[d], now, retention) != [] :: Retained(cache[d], now, retention)
  }

  lemma {:induction false} RetainedSomeIff(slots: seq<Slot>, now: nat, retention: nat)
    ensures Retained(slots, now, retention) != []
       <==> exists i :: 0 <= i < |slots| && now <= slots[i].cachedAt + retention
  {
    if slots != [] {
      var last := |slots| - 1;
      RetainedSomeIff(slots[..last], now, retention);
      assert forall i :: 0 <= i < last ==> slots[..last][i] == slots[i];
    }
  }

  /** After a cleanup exactly the young slots are there, as often as before, and no directory without slots. */
  lemma CleanedIff(cache: Slots, now: nat, retention: nat, d: Id, x: Slot)
    ensures var young := if now <= x.cachedAt + retention then multiset(At(cache, d))[x] else 0;
            multiset(At(Cleaned(cache, now, retention), d))[x] == young
    ensures d in Cleaned(cache, now, retention)
       <==> exists i :: 0 <= i < |At(cache, d)| && now <= At(cache, d)[i].cachedAt + retention
  {
    RetainedKeepsYoung(At(cache, d), now, retention);
    RetainedSomeIff(At(cache, d), now, retention);
  }

  // ---- The code ----

  class Cache {
    const retention: nat
    const maxPerDir: nat
    var cache: Slots
    var counter: U32

    constructor (retention: nat, maxPerDir: nat)
      ensures this.retention == retention && this.maxPerDir == maxPerDir && cache == map[] && counter == 0
    {
      this.retention := retention;
      this.maxPerDir := maxPerDir;
      cache := map[];
      counter := 0;
    }

    method GenerateBaseCookie() returns (base: U64)
      modifies `counter
      ensures base == Base(old(counter)) && counter == (old(counter) + 1) % 0x1_0000_0000
    {
      base := Base(counter);
      counter := (counter + 1) % 0x1_0000_0000;
    }

    method PopState(dir: Id, cookie: nat) returns (r: Option<Slot>)
      modifies `cache
      ensures var slots := At(old(cache), dir);
              var i := Position(slots, cookie);
              if i == |slots| then r == None && cache == old(cache)
              else r == Some(slots[i]) && cache == old(cache)[dir := SwapRemove(slots, i)]
    {
      if dir !in cache { return None; }
      var slots := cache[dir];
      var i := 0;
      while i < |slots| && slots[i].cookie != cookie
        invariant i <= |slots| && forall j :: 0 <= j < i ==> slots[j].cookie != cookie
      {
        i := i + 1;
      }
      if i == |slots| { return None; }
      cache := cache[dir := SwapRemove(slots, i)];
      r := Some(slots[i]);
    }

    method CacheState(dir: Id, cookie: nat, readDir: ReadDir, now: nat)
      modifies `cache
      ensures cache == Put(old(cache), dir, Slot(cookie, now, readDir), maxPerDir)
    {
      var slots := At(cache, dir) + [Slot(cookie, now, readDir)];
      cache := cache[dir := slots];
      TrimCacheForDir(dir);
    }

    method TrimCacheForDir(dir: Id)
      modifies `cache
      ensures cache == if dir in old(cache) then old(cache)[dir := Trimmed(old(cache)[dir], maxPerDir)] else old(cache)
    {
      if dir !in cache { return; }
      var slots := cache[dir];
      if |slots| > maxPerDir {
        ByTimeSorts(slots);
        var sorted := ByTime(slots);
        var kept := sorted[|slots| - maxPerDir..];
        assert kept == Trimmed(slots, maxPerDir);
        cache := cache[dir := kept];
      } else {
        assert cache[dir := slots] == cache;
      }
    }

    method Cleanup(now: nat)
      modifies `cache
      ensures cache == Cleaned(old(cache), now, retention)
    {
      var all := cache;
      var dirs := all.Keys;
      cache := map[];
      while dirs != {}
        invariant dirs <= all.Keys
        invariant forall d: Id :: d in cache <==> d in all && d !in dirs && Retained(all[d], now, retention) != []
        invariant forall d: Id :: d in cache ==> cache[d] == Retained(all[d], now, retention)
        decreases dirs
      {
        var d :| d in dirs;
        dirs := dirs - {d};
        var kept := Retain(all[d], now);
        if kept != [] { cache := cache[d := kept]; }
      }
    }

    method Retain(slots: seq<Slot>, now: nat) returns (kept: seq<Slot>)
      ensures kept == Retained(slots, now, retention)
    {
      kept := [];
      for i := 0 to |slots|
        invariant kept == Retained(slots[..i], now, retention)
      {
        assert slots[..i + 1][..i] == slots[..i];
        if Since(now, slots[i].cachedAt) <= retention { kept := kept + [slots[i]]; }
      }
      assert slots[..|slots|] == slots;
    }
  }
}
