/** Listing a directory of the mirrored file system over several requests: streams go from an iterator
    into the cache and on to the next iterator, and cookies say where. */
module MirrorListing {
  import opened Basics
  import opened Tree
  import opened IteratorCache

  const STEP: nat := 0x1_0000_0000

  datatype Listing = Listing(dir: Id, names: seq<Name>)

  datatype Iter = Iter(dir: Id, readDir: Option<ReadDir>, cookie: nat)

  /** An entry given out, with the listing it came from. */
  datatype Issue = Issue(listing: nat, cookie: nat, dir: Id, name: Name)

  /** `listings` and `issued` are the history of fresh listings and of entries given out. */
  datatype State = State(listings: seq<Listing>, counter: U32, cache: Slots, live: map<nat, Iter>, issued: seq<Issue>)

  datatype Limits = Limits(retention: nat, maxPerDir: nat)

  datatype Op =
    | Open(it: nat, dir: Id, cookie: U64, names: seq<Name>)
    | Next(it: nat, fault: bool)
    | Drop(it: nat, now: nat)
    | Cleanup(now: nat)

  datatype Pull = Entry(name: Name, cookie: nat) | Eof | Fault

  const INITIAL: State := State([], 0, map[], map[], [])

  // ---- Steps ----

  /** One entry from the stream; at its end the stream is closed. */
  function Pulled(iter: Iter, fault: bool): (Iter, Pull) {
    match iter.readDir
    case None => (iter, Eof)
    case Some(rd) =>
      if fault then (iter, Fault)
      else if rd.pos < |rd.names| then
        var iter' := iter.(readDir := Some(rd.(pos := rd.pos + 1)), cookie := iter.cookie + 1);
        (iter', Entry(rd.names[rd.pos], iter'.cookie))
      else (iter.(readDir := None), Eof)
  }

  /** A fault on disk changes nothing; an entry moves the stream and the cookie on by one; the end closes the stream. */
  lemma PullAnswers(iter: Iter, fault: bool)
    ensures iter.readDir.None? ==> Pulled(iter, fault) == (iter, Eof)
    ensures iter.readDir.Some? && fault ==> Pulled(iter, fault) == (iter, Fault)
    ensures iter.readDir.Some? && !fault ==>
      var (rd, after) := (iter.readDir.value, Pulled(iter, fault).0);
      if rd.pos < |rd.names| then
        && Pulled(iter, fault).1 == Entry(rd.names[rd.pos], iter.cookie + 1)
        && after == Iter(iter.dir, Some(ReadDir(rd.listing, rd.names, rd.pos + 1)), iter.cookie + 1)
      else Pulled(iter, fault).1 == Eof && after == Iter(iter.dir, None, iter.cookie)
  {}

  predicate Allowed(s: State, op: Op) {
    match op
    case Open(it, _, _, _) => it !in s.live
    case Next(it, _) => it in s.live
    case Drop(it, _) => it in s.live
    case Cleanup(_) => true
  }

  function Apply(s: State, op: Op, limits: Limits): State
    requires Allowed(s, op)
  {
    match op
    case Open(it, d, cookie, names) => if cookie == 0 then OpenFresh(s, it, d, names) else Reopen(s, it, d, cookie)
    case Next(it, fault) => PullNext(s, it, fault)
    case Drop(it, now) => Close(s, it, now, limits.maxPerDir)
    case Cleanup(now) => s.(cache := Cleaned(s.cache, now, limits.retention))
  }

  function OpenFresh(s: State, it: nat, d: Id, names: seq<Name>): State {
    s.(listings := s.listings + [Listing(d, names)], counter := (s.counter + 1) % 0x1_0000_0000,
       live := s.live[it := Iter(d, Some(ReadDir(|s.listings|, names, 0)), Base(s.counter))])
  }

  /** A cookie that is not cached is refused. */
  function Reopen(s: State, it: nat, d: Id, cookie: nat): State {
    var slots := At(s.cache, d);
    var i := Position(slots, cookie);
    if i == |slots| then s
    else
      s.(cache := s.cache[d := SwapRemove(slots, i)],
         live := s.live[it := Iter(d, Some(slots[i].readDir), slots[i].cookie)])
  }

  function PullNext(s: State, it: nat, fault: bool): State
    requires it in s.live
  {
    var (iter, pull) := Pulled(s.live[it], fault);
    s.(live := s.live[it := iter],
       issued := match pull
                 case Entry(name, cookie) =>
                   s.issued + [Issue(s.live[it].readDir.value.listing, cookie, iter.dir, name)]
                 case _ => s.issued)
  }

  function Close(s: State, it: nat, now: nat, max: nat): State
    requires it in s.live
  {
    var iter := s.live[it];
    s.(live := s.live - {it},
       cache := if iter.readDir.None? then s.cache
                else Put(s.cache, iter.dir, Slot(iter.cookie, now, iter.readDir.value), max))
  }

  // ---- The invariant ----

  /** The names given out from one listing, in order. */
  function Given(issued: seq<Issue>, n: nat): seq<Name> {
    if issued == [] then []
    else
      var last := |issued| - 1;
      Given(issued[..last], n) + if issued[last].listing == n then [issued[last].name] else []
  }

  /** A held stream is at the place its cookie says, and what came before it has been given out. */
  predicate Fits(listings: seq<Listing>, issued: seq<Issue>, d: Id, rd: ReadDir, cookie: nat) {
    && rd.listing < |listings| && listings[rd.listing] == Listing(d, rd.names)
    && rd.pos <= |rd.names| && cookie == Base(rd.listing % STEP) + rd.pos
    && Given(issued, rd.listing) == rd.names[..rd.pos]
  }

  /** Iterator `it` has the stream of listing `n`. */
  predicate Holds(live: map<nat, Iter>, it: nat, n: nat) {
    it in live && live[it].readDir.Some? && live[it].readDir.value.listing == n
  }

  predicate Stores(cache: Slots, d: Id, slot: Slot) {
    d in cache && slot in cache[d]
  }

  predicate IterFits(listings: seq<Listing>, issued: seq<Issue>, iter: Iter) {
    iter.readDir.Some? ==> Fits(listings, issued, iter.dir, iter.readDir.value, iter.cookie)
  }

  predicate LiveFit(listings: seq<Listing>, issued: seq<Issue>, live: map<nat, Iter>) {
    forall it :: it in live ==> IterFits(listings, issued, live[it])
  }

  ghost predicate CacheFits(listings: seq<Listing>, issued: seq<Issue>, cache: Slots) {
    forall d: Id, slot: Slot :: Stores(cache, d, slot) ==> Fits(listings, issued, d, slot.readDir, slot.cookie)
  }

  // No stream is held twice: by two iterators, by an iterator and a slot, or by two slots.

  ghost predicate LiveApart(live: map<nat, Iter>) {
    forall i: nat, j: nat, n: nat :: Holds(live, i, n) && Holds(live, j, n) ==> i == j
  }

  ghost predicate Apart(live: map<nat, Iter>, cache: Slots) {
    forall it: nat, d: Id, slot: Slot :: Stores(cache, d, slot) ==> !Holds(live, it, slot.readDir.listing)
  }

  predicate Distinct(slots: seq<Slot>) {
    && (forall x :: x in slots ==> multiset(slots)[x] == 1)
    && forall x, y :: x in slots && y in slots && x.readDir.listing == y.readDir.listing ==> x == y
  }

  predicate CacheApart(cache: Slots) {
    forall d :: d in cache ==> Distinct(cache[d])
  }

  /** Every entry's cookie is the base of its listing plus the number of entries given out so far,
      and a listing gives out a prefix of the directory. */
  predicate IssuedInOrder(listings: seq<Listing>, issued: seq<Issue>) {
    && (forall t :: 0 <= t < |issued| ==> Numbered(listings, issued, t))
    && forall n :: 0 <= n < |listings| ==> Given(issued, n) <= listings[n].names
  }

  predicate Numbered(listings: seq<Listing>, issued: seq<Issue>, t: nat)
    requires t < |issued|
  {
    var e := issued[t];
    && e.listing < |listings| && e.dir == listings[e.listing].dir
    && e.cookie == Base(e.listing % STEP) + |Given(issued[..t], e.listing)| + 1
  }

  ghost predicate Inv(s: State) {
    && s.counter == |s.listings| % STEP
    && LiveFit(s.listings, s.issued, s.live) && CacheFits(s.listings, s.issued, s.cache)
    && LiveApart(s.live) && Apart(s.live, s.cache) && CacheApart(s.cache)
    && IssuedInOrder(s.listings, s.issued)
  }

  // ---- Opening a fresh listing keeps it ----

  lemma {:induction false} NothingGivenYet(listings: seq<Listing>, issued: seq<Issue>, t: nat, n: nat)
    requires IssuedInOrder(listings, issued) && t <= |issued| && |listings| <= n
    ensures Given(issued[..t], n) == []
  {
    if t > 0 {
      NothingGivenYet(listings, issued, t - 1, n);
      assert issued[..t][..t - 1] == issued[..t - 1];
      assert Numbered(listings, issued, t - 1);
    }
  }

  lemma MoreListingsInOrder(listings: seq<Listing>, issued: seq<Issue>, x: Listing)
    requires IssuedInOrder(listings, issued)
    ensures IssuedInOrder(listings + [x], issued)
  {
    NothingGivenYet(listings, issued, |issued|, |listings|);
    assert issued[..|issued|] == issued;
    forall t | 0 <= t < |issued| ensures Numbered(listings + [x], issued, t) {
      assert Numbered(listings, issued, t);
    }
  }

  /** A new iterator with a stream nobody holds. */
  lemma NewHolder(live: map<nat, Iter>, cache: Slots, it: nat, iter: Iter)
    requires LiveApart(live) && Apart(live, cache) && it !in live && iter.readDir.Some?
    requires forall i: nat :: !Holds(live, i, iter.readDir.value.listing)
    requires forall d: Id, slot: Slot :: Stores(cache, d, slot) ==> slot.readDir.listing != iter.readDir.value.listing
    ensures LiveApart(live[it := iter]) && Apart(live[it := iter], cache)
  {
    var live' := live[it := iter];
    forall i: nat, n: nat | Holds(live', i, n)
      ensures if i == it then n == iter.readDir.value.listing else Holds(live, i, n)
    {}
  }

  lemma NextCounter(n: nat)
    ensures (n % STEP + 1) % 0x1_0000_0000 == (n + 1) % STEP
  {}

  lemma OpenFreshKeepsInv(s: State, it: nat, d: Id, names: seq<Name>)
    requires Inv(s) && it !in s.live
    ensures Inv(OpenFresh(s, it, d, names))
  {
    var n := |s.listings|;
    var x, iter := Listing(d, names), Iter(d, Some(ReadDir(n, names, 0)), Base(s.counter));
    NextCounter(n);
    MoreListingsInOrder(s.listings, s.issued, x);
    NothingGivenYet(s.listings, s.issued, |s.issued|, n);
    assert s.issued[..|s.issued|] == s.issued;
    assert IterFits(s.listings + [x], s.issued, iter);
    forall i: nat ensures !Holds(s.live, i, n) {
      if i in s.live { assert IterFits(s.listings, s.issued, s.live[i]); }
    }
    NewHolder(s.live, s.cache, it, iter);
  }

  // ---- Continuing a cached stream keeps it ----

  /** Fewer slots, none new. */
  predicate Fewer(slots: seq<Slot>, of: seq<Slot>) {
    multiset(slots) <= multiset(of)
  }

  lemma FewerStayDistinct(slots: seq<Slot>, of: seq<Slot>)
    requires Fewer(slots, of) && Distinct(of)
    ensures Distinct(slots) && forall x :: x in slots ==> x in of
  {
    forall x | x in slots ensures x in of {
      assert x in multiset(slots);
    }
  }

  /** The slots of one directory are replaced. */
  lemma ReplacedSlots(s: State, d: Id, slots: seq<Slot>)
    requires Inv(s) && Fewer(slots, At(s.cache, d))
    ensures Inv(s.(cache := s.cache[d := slots]))
  {
    var cache := s.cache[d := slots];
    FewerStayDistinct(slots, At(s.cache, d));
    forall e: Id, slot: Slot | Stores(cache, e, slot) ensures Stores(s.cache, e, slot) {
      if e == d { assert slot in At(s.cache, d); }
    }
  }

  /** The stream that was taken out is not in another slot. */
  lemma TakenIsGone(s: State, d: Id, i: nat)
    requires Inv(s) && d in s.cache && i < |s.cache[d]|
    ensures var x := s.cache[d][i]; var cache := s.cache[d := SwapRemove(s.cache[d], i)];
            && Inv(s.(cache := cache)) && Fits(s.listings, s.issued, d, x.readDir, x.cookie)
            && (forall it: nat :: !Holds(s.live, it, x.readDir.listing))
            && forall e: Id, slot: Slot :: Stores(cache, e, slot) ==> slot.readDir.listing != x.readDir.listing
  {
    var slots := s.cache[d];
    var x, rest := slots[i], SwapRemove(slots, i);
    SwapRemoveTakesOne(slots, i);
    ReplacedSlots(s, d, rest);
    FewerStayDistinct(rest, slots);
    assert Stores(s.cache, d, x);
    var cache := s.cache[d := rest];
    forall e: Id, slot: Slot | Stores(cache, e, slot) ensures slot.readDir.listing != x.readDir.listing {
      if e == d {
        assert slot in multiset(rest);
        assert multiset(slots)[x] == 1;
      } else {
        assert Stores(s.cache, e, slot);
      }
    }
  }

  lemma ReopenKeepsInv(s: State, it: nat, d: Id, cookie: nat)
    requires Inv(s) && it !in s.live
    ensures Inv(Reopen(s, it, d, cookie))
  {
    var slots := At(s.cache, d);
    var i := Position(slots, cookie);
    if i < |slots| {
      TakenIsGone(s, d, i);
      NewHolder(s.live, s.cache[d := SwapRemove(slots, i)], it, Iter(d, Some(slots[i].readDir), slots[i].cookie));
    }
  }

  // ---- Pulling an entry keeps it ----

  lemma OneMoreInOrder(listings: seq<Listing>, issued: seq<Issue>, d: Id, rd: ReadDir, cookie: nat)
    requires IssuedInOrder(listings, issued) && Fits(listings, issued, d, rd, cookie) && rd.pos < |rd.names|
    ensures var e := Issue(rd.listing, cookie + 1, d, rd.names[rd.pos]);
            && IssuedInOrder(listings, issued + [e])
            && Fits(listings, issued + [e], d, rd.(pos := rd.pos + 1), cookie + 1)
  {
    var e := Issue(rd.listing, cookie + 1, d, rd.names[rd.pos]);
    var issued' := issued + [e];
    assert rd.names[..rd.pos + 1] == rd.names[..rd.pos] + [rd.names[rd.pos]];
    forall t | 0 <= t < |issued'| ensures Numbered(listings, issued', t) {
      assert issued'[..t] == if t < |issued| then issued[..t] else issued;
      if t < |issued| { assert Numbered(listings, issued, t); }
    }
    forall n | 0 <= n < |listings| ensures Given(issued', n) <= listings[n].names {}
  }

  /** An iterator changes without changing its stream, or gives the stream up. */
  lemma SameHolder(live: map<nat, Iter>, cache: Slots, it: nat, iter: Iter)
    requires LiveApart(live) && Apart(live, cache) && it in live
    requires iter.readDir.Some? ==> Holds(live, it, iter.readDir.value.listing)
    ensures LiveApart(live[it := iter]) && Apart(live[it := iter], cache)
  {
    var live' := live[it := iter];
    forall i: nat, n: nat | Holds(live', i, n) ensures Holds(live, i, n) {}
  }

  lemma PullKeepsApart(live: map<nat, Iter>, cache: Slots, it: nat, fault: bool)
    requires LiveApart(live) && Apart(live, cache) && it in live
    ensures LiveApart(live[it := Pulled(live[it], fault).0]) && Apart(live[it := Pulled(live[it], fault).0], cache)
  {
    if live[it].readDir.Some? { assert Holds(live, it, live[it].readDir.value.listing); }
    SameHolder(live, cache, it, Pulled(live[it], fault).0);
  }

  lemma EntryKeepsInv(s: State, it: nat)
    requires Inv(s) && it in s.live && Pulled(s.live[it], false).1.Entry?
    ensures Inv(PullNext(s, it, false))
  {
    var iter, rd := s.live[it], s.live[it].readDir.value;
    var e := Issue(rd.listing, iter.cookie + 1, iter.dir, rd.names[rd.pos]);
    PullKeepsApart(s.live, s.cache, it, false);
    EntryKeepsFit(s.listings, s.issued, s.live, s.cache, it);
    assert PullNext(s, it, false) == s.(live := s.live[it := Pulled(iter, false).0], issued := s.issued + [e]);
  }

  lemma NoEntryKeepsInv(s: State, it: nat, fault: bool)
    requires Inv(s) && it in s.live && !Pulled(s.live[it], fault).1.Entry?
    ensures Inv(PullNext(s, it, fault))
  {
    PullKeepsApart(s.live, s.cache, it, fault);
    assert PullNext(s, it, fault) == s.(live := s.live[it := Pulled(s.live[it], fault).0]);
  }

  lemma PullKeepsInv(s: State, it: nat, fault: bool)
    requires Inv(s) && it in s.live
    ensures Inv(PullNext(s, it, fault))
  {
    if Pulled(s.live[it], fault).1.Entry? {
      assert !fault;
      EntryKeepsInv(s, it);
    } else {
      NoEntryKeepsInv(s, it, fault);
    }
  }

  lemma EntryKeepsFit(listings: seq<Listing>, issued: seq<Issue>, live: map<nat, Iter>, cache: Slots, it: nat)
    requires LiveFit(listings, issued, live) && CacheFits(listings, issued, cache)
    requires LiveApart(live) && Apart(live, cache) && IssuedInOrder(listings, issued)
    requires it in live && Pulled(live[it], false).1.Entry?
    ensures var iter, rd := live[it], live[it].readDir.value;
            var e := Issue(rd.listing, iter.cookie + 1, iter.dir, rd.names[rd.pos]);
            && LiveFit(listings, issued + [e], live[it := Pulled(iter, false).0])
            && CacheFits(listings, issued + [e], cache) && IssuedInOrder(listings, issued + [e])
  {
    var iter, rd := live[it], live[it].readDir.value;
    var e := Issue(rd.listing, iter.cookie + 1, iter.dir, rd.names[rd.pos]);
    assert IterFits(listings, issued, iter) && Holds(live, it, rd.listing);
    OneMoreInOrder(listings, issued, iter.dir, rd, iter.cookie);
    OtherItersFit(listings, issued, live, it, Pulled(iter, false).0, e);
  }

  lemma OtherItersFit(listings: seq<Listing>, issued: seq<Issue>, live: map<nat, Iter>, it: nat, iter: Iter, e: Issue)
    requires LiveFit(listings, issued, live) && LiveApart(live) && Holds(live, it, e.listing)
    requires IterFits(listings, issued + [e], iter)
    ensures LiveFit(listings, issued + [e], live[it := iter])
  {
    forall i | i in live && i != it ensures IterFits(listings, issued + [e], live[i]) {
      if live[i].readDir.Some? {
        assert IterFits(listings, issued, live[i]) && Holds(live, i, live[i].readDir.value.listing);
      }
    }
  }

  // ---- Dropping an iterator, and cleaning up, keep it ----

  lemma FewerHolders(live: map<nat, Iter>, cache: Slots, it: nat)
    requires LiveApart(live) && Apart(live, cache) && it in live
    ensures LiveApart(live - {it}) && Apart(live - {it}, cache)
  {
    forall i: nat, n: nat | Holds(live - {it}, i, n) ensures Holds(live, i, n) {}
  }

  /** Without its iterator a stream has no holder. */
  lemma Released(s: State, it: nat)
    requires Inv(s) && it in s.live
    ensures Inv(s.(live := s.live - {it}))
    ensures s.live[it].readDir.Some? ==>
      var iter := s.live[it];
      && Fits(s.listings, s.issued, iter.dir, iter.readDir.value, iter.cookie)
      && (forall i: nat :: !Holds(s.live - {it}, i, iter.readDir.value.listing))
      && forall y :: y in At(s.cache, iter.dir) ==> y.readDir.listing != iter.readDir.value.listing
  {
    var iter := s.live[it];
    FewerHolders(s.live, s.cache, it);
    if iter.readDir.Some? {
      var n := iter.readDir.value.listing;
      assert IterFits(s.listings, s.issued, iter) && Holds(s.live, it, n);
      forall i: nat ensures !Holds(s.live - {it}, i, n) {
        if Holds(s.live - {it}, i, n) { assert Holds(s.live, i, n); }
      }
      forall y | y in At(s.cache, iter.dir) ensures y.readDir.listing != n {
        assert Stores(s.cache, iter.dir, y);
      }
    }
  }

  lemma TrimmedIsFewer(slots: seq<Slot>, max: nat)
    ensures Fewer(Trimmed(slots, max), slots)
  {
    var dropped := TrimDropsOldest(slots, max);
  }

  lemma PutKeepsInv(s: State, d: Id, slot: Slot, max: nat)
    requires Inv(s) && Fits(s.listings, s.issued, d, slot.readDir, slot.cookie)
    requires forall i: nat :: !Holds(s.live, i, slot.readDir.listing)
    requires forall y :: y in At(s.cache, d) ==> y.readDir.listing != slot.readDir.listing
    ensures Inv(s.(cache := Put(s.cache, d, slot, max)))
  {
    var all := At(s.cache, d) + [slot];
    SlotAddedKeepsInv(s, d, slot);
    var s1, kept := s.(cache := s.cache[d := all]), Trimmed(all, max);
    TrimmedIsFewer(all, max);
    ReplacedSlots(s1, d, kept);
    assert s1.cache[d := kept] == Put(s.cache, d, slot, max);
    assert s1.(cache := s1.cache[d := kept]) == s.(cache := Put(s.cache, d, slot, max));
  }

  lemma CloseKeepsInv(s: State, it: nat, now: nat, max: nat)
    requires Inv(s) && it in s.live
    ensures Inv(Close(s, it, now, max))
  {
    var iter := s.live[it];
    Released(s, it);
    if iter.readDir.Some? {
      PutKeepsInv(s.(live := s.live - {it}), iter.dir, Slot(iter.cookie, now, iter.readDir.value), max);
    }
  }

  lemma SlotAddedKeepsInv(s: State, d: Id, slot: Slot)
    requires Inv(s) && Fits(s.listings, s.issued, d, slot.readDir, slot.cookie)
    requires forall i: nat :: !Holds(s.live, i, slot.readDir.listing)
    requires forall y :: y in At(s.cache, d) ==> y.readDir.listing != slot.readDir.listing
    ensures Inv(s.(cache := s.cache[d := At(s.cache, d) + [slot]]))
  {
    var cache := s.cache[d := At(s.cache, d) + [slot]];
    forall e: Id, x: Slot | Stores(cache, e, x) ensures (e == d && x == slot) || Stores(s.cache, e, x) {
      if e == d && x != slot { assert x in At(s.cache, d); }
    }
  }

  lemma CleanupKeepsInv(s: State, now: nat, retention: nat)
    requires Inv(s)
    ensures Inv(s.(cache := Cleaned(s.cache, now, retention)))
  {
    var cache := Cleaned(s.cache, now, retention);
    forall d | d in cache ensures Distinct(cache[d]) && forall x :: x in cache[d] ==> x in s.cache[d] {
      RetainedKeepsYoung(s.cache[d], now, retention);
      FewerStayDistinct(cache[d], s.cache[d]);
    }
    forall e: Id, slot: Slot | Stores(cache, e, slot) ensures Stores(s.cache, e, slot) {
      assert slot in cache[e];
    }
  }

  lemma StepKeepsInv(s: State, op: Op, limits: Limits)
    requires Inv(s) && Allowed(s, op)
    ensures Inv(Apply(s, op, limits))
  {
    match op
    case Open(it, d, cookie, names) =>
      if cookie == 0 { OpenFreshKeepsInv(s, it, d, names); } else { ReopenKeepsInv(s, it, d, cookie); }
    case Next(it, fault) => PullKeepsInv(s, it, fault);
    case Drop(it, now) => CloseKeepsInv(s, it, now, limits.maxPerDir);
    case Cleanup(now) => CleanupKeepsInv(s, now, limits.retention);
  }

  /** A run from the start, whatever requests, drops and cleanups come in whatever order. */
  ghost predicate Run(states: seq<State>, ops: seq<Op>, limits: Limits) {
    && |states| == |ops| + 1 && states[0] == INITIAL
    && forall i :: 0 <= i < |ops| ==> Allowed(states[i], ops[i]) && states[i + 1] == Apply(states[i], ops[i], limits)
  }

  lemma {:induction false} RunKeepsInv(states: seq<State>, ops: seq<Op>, limits: Limits, i: nat)
    requires Run(states, ops, limits) && i < |states|
    ensures Inv(states[i])
  {
    if i > 0 {
      RunKeepsInv(states, ops, limits, i - 1);
      StepKeepsInv(states[i - 1], ops[i - 1], limits);
      assert states[i - 1 + 1] == Apply(states[i - 1], ops[i - 1], limits);
    }
  }

  // ---- What it means ----

  lemma {:induction false} GivenGrows(issued: seq<Issue>, i: nat, j: nat, n: nat)
    requires i <= j <= |issued|
    ensures Given(issued[..i], n) <= Given(issued[..j], n)
  {
    if i < j {
      GivenGrows(issued, i, j - 1, n);
      assert issued[..j][..j - 1] == issued[..j - 1];
    }
  }

  /** Nothing is taken back from the history. */
  lemma {:induction false} RunOnlyAdds(states: seq<State>, ops: seq<Op>, limits: Limits, i: nat, j: nat)
    requires Run(states, ops, limits) && i <= j < |states|
    ensures states[i].listings <= states[j].listings && states[i].issued <= states[j].issued
  {
    if i < j {
      RunOnlyAdds(states, ops, limits, i, j - 1);
      assert states[j - 1 + 1] == Apply(states[j - 1], ops[j - 1], limits);
    }
  }

  /** Whatever happens in between, a listing gives out its directory's names in order from the first, none left
      out and none twice; when its stream says it is at the end, all have been given out. */
  lemma RunListsInOrder(states: seq<State>, ops: seq<Op>, limits: Limits, i: nat, j: nat, n: nat)
    requires Run(states, ops, limits) && i <= j < |states| && n < |states[i].listings|
    ensures var (s, s') := (states[i], states[j]);
            && n < |s'.listings| && s'.listings[n] == s.listings[n]
            && Given(s.issued, n) <= Given(s'.issued, n) <= s.listings[n].names
            && forall it: nat :: Holds(s'.live, it, n) && Pulled(s'.live[it], false).1 == Eof ==>
                 Given(s'.issued, n) == s.listings[n].names
  {
    var s, s' := states[i], states[j];
    RunOnlyAdds(states, ops, limits, i, j);
    RunKeepsInv(states, ops, limits, j);
    GivenGrows(s'.issued, |s.issued|, |s'.issued|, n);
    assert s'.issued[..|s.issued|] == s.issued && s'.issued[..|s'.issued|] == s'.issued;
    forall it: nat | Holds(s'.live, it, n) && Pulled(s'.live[it], false).1 == Eof
      ensures Given(s'.issued, n) == s'.listings[n].names
    {
      assert IterFits(s'.listings, s'.issued, s'.live[it]);
    }
  }

  /** How far its listing was when entry `t` had been given out. */
  function PlaceAfter(issued: seq<Issue>, t: nat): nat
    requires t < |issued|
  {
    |Given(issued[..t + 1], issued[t].listing)|
  }

  /** The cookie of an entry is its listing's base and its place among the entries of that listing, and
      at that place in the directory stands its name. */
  lemma EntryIsInPlace(s: State, t: nat)
    requires Inv(s) && t < |s.issued|
    ensures var e := s.issued[t]; var k := PlaceAfter(s.issued, t);
            && e.listing < |s.listings| && e.dir == s.listings[e.listing].dir
            && 1 <= k <= |s.listings[e.listing].names| && s.listings[e.listing].names[k - 1] == e.name
            && e.cookie == Base(e.listing % STEP) + k
  {
    var e := s.issued[t];
    assert Numbered(s.listings, s.issued, t);
    assert s.issued[..t + 1][..t] == s.issued[..t];
    GivenGrows(s.issued, t + 1, |s.issued|, e.listing);
    assert s.issued[..|s.issued|] == s.issued;
    assert Given(s.issued, e.listing) <= s.listings[e.listing].names;
  }

  /** Two entries of one listing are in different places. */
  lemma PlacesDiffer(issued: seq<Issue>, t: nat, u: nat)
    requires t < u < |issued| && issued[t].listing == issued[u].listing
    ensures PlaceAfter(issued, t) < PlaceAfter(issued, u)
  {
    GivenGrows(issued, t + 1, u, issued[u].listing);
    assert issued[..u + 1][..u] == issued[..u];
  }

  /** Every listing has fewer than 2^32 entries. */
  predicate ShortListings(s: State) {
    forall n :: 0 <= n < |s.listings| ==> |s.listings[n].names| < STEP
  }

  /** A cookie fits 64 bits and is never that of a first request. */
  lemma CookiesAreProper(s: State, t: nat)
    requires Inv(s) && ShortListings(s) && t < |s.issued|
    ensures 0 < s.issued[t].cookie < 0x1_0000_0000_0000_0000
  {
    EntryIsInPlace(s, t);
  }

  /** Two entries have one cookie exactly when their places agree modulo 2^32 and make up for what their
      listings' numbers, modulo 2^32, differ by. Then they are of two listings. */
  lemma CookiesMeetIff(s: State, t: nat, u: nat)
    requires Inv(s) && t < u < |s.issued|
    ensures var (e, f) := (s.issued[t], s.issued[u]);
            var (j, k) := (PlaceAfter(s.issued, t), PlaceAfter(s.issued, u));
            e.cookie == f.cookie <==> e.listing % STEP + j / STEP == f.listing % STEP + k / STEP && j % STEP == k % STEP
    ensures s.issued[t].cookie == s.issued[u].cookie ==> s.issued[t].listing != s.issued[u].listing
  {
    EntryIsInPlace(s, t);
    EntryIsInPlace(s, u);
    if s.issued[t].listing == s.issued[u].listing { PlacesDiffer(s.issued, t, u); }
  }

  /** For short listings that is the same place of two listings whose numbers agree modulo 2^32. */
  lemma ShortListingsMeetIff(s: State, t: nat, u: nat)
    requires Inv(s) && ShortListings(s) && t < u < |s.issued|
    ensures s.issued[t].cookie == s.issued[u].cookie <==>
            && s.issued[t].listing % STEP == s.issued[u].listing % STEP
            && PlaceAfter(s.issued, t) == PlaceAfter(s.issued, u)
  {
    CookiesMeetIff(s, t, u);
    EntryIsInPlace(s, t);
    EntryIsInPlace(s, u);
  }

  /** With no more than 2^32 listings no cookie is given out twice. */
  lemma CookiesAreDistinct(s: State, t: nat, u: nat)
    requires Inv(s) && ShortListings(s) && |s.listings| <= STEP && t < u < |s.issued|
    ensures s.issued[t].cookie != s.issued[u].cookie
  {
    ShortListingsMeetIff(s, t, u);
    CookiesMeetIff(s, t, u);
    EntryIsInPlace(s, t);
    EntryIsInPlace(s, u);
  }

  /** A stream that the cookie at place `k` of listing `n` may stand for. */
  predicate Meets(slot: Slot, n: nat, k: nat) {
    slot.readDir.listing % STEP == n % STEP && slot.readDir.pos == k
  }

  /** The stream of listing `n` waits at place `k`, and no slot before it is one the cookie may stand for. */
  predicate WaitsFirst(slots: seq<Slot>, n: nat, k: nat) {
    exists i :: 0 <= i < |slots| && slots[i].readDir.listing == n && slots[i].readDir.pos == k
                && forall j :: 0 <= j < i ==> !Meets(slots[j], n, k)
  }

  /** In a directory's slots, cookies tell what `Meets` tells. */
  lemma CookiesMeetSlots(s: State, t: nat, d: Id, i: nat)
    requires Inv(s) && ShortListings(s) && t < |s.issued| && i < |At(s.cache, d)|
    ensures At(s.cache, d)[i].cookie == s.issued[t].cookie
       <==> Meets(At(s.cache, d)[i], s.issued[t].listing, PlaceAfter(s.issued, t))
    ensures var rd := At(s.cache, d)[i].readDir;
            && rd.listing < |s.listings| && s.listings[rd.listing] == Listing(d, rd.names)
            && rd.pos <= |rd.names| && Given(s.issued, rd.listing) == rd.names[..rd.pos]
  {
    EntryIsInPlace(s, t);
    assert Stores(s.cache, d, At(s.cache, d)[i]);
  }

  /** A client that comes back with the cookie of an entry goes on right after that entry exactly when the
      stream waits for it in that directory, before any that the cookie may stand for as well. */
  lemma ResumeContinuesIff(s: State, t: nat, it: nat, d: Id)
    requires Inv(s) && ShortListings(s) && t < |s.issued| && it !in s.live
    ensures var e := s.issued[t]; var k := PlaceAfter(s.issued, t); var s' := Reopen(s, it, d, e.cookie);
            && e.listing < |s.listings|
            && (it in s'.live && s'.live[it].readDir == Some(ReadDir(e.listing, s.listings[e.listing].names, k))
                <==> WaitsFirst(At(s.cache, d), e.listing, k))
    ensures var s' := Reopen(s, it, d, s.issued[t].cookie);
            if it !in s'.live then s' == s else s'.live[it].cookie == s.issued[t].cookie && s'.live[it].dir == d
  {
    var e, k := s.issued[t], PlaceAfter(s.issued, t);
    EntryIsInPlace(s, t);
    var slots := At(s.cache, d);
    forall i | 0 <= i < |slots| ensures slots[i].cookie == e.cookie <==> Meets(slots[i], e.listing, k) {
      CookiesMeetSlots(s, t, d, i);
    }
    var i := Position(slots, e.cookie);
    if i < |slots| { CookiesMeetSlots(s, t, d, i); }
  }

  /** With no more than 2^32 listings a client that comes back is refused, or goes on right after its
      entry, in the same directory; then no one has been given the next entry yet. */
  lemma ResumeContinues(s: State, t: nat, it: nat, d: Id)
    requires Inv(s) && ShortListings(s) && |s.listings| <= STEP && t < |s.issued| && it !in s.live
    ensures var e := s.issued[t]; var k := PlaceAfter(s.issued, t); var s' := Reopen(s, it, d, e.cookie);
            if it !in s'.live then s' == s
            else
              && e.listing < |s.listings| && d == e.dir && s'.live[it].cookie == e.cookie
              && s'.live[it].readDir == Some(ReadDir(e.listing, s.listings[e.listing].names, k))
              && |Given(s.issued, e.listing)| == k
  {
    var e, k := s.issued[t], PlaceAfter(s.issued, t);
    EntryIsInPlace(s, t);
    var slots := At(s.cache, d);
    var i := Position(slots, e.cookie);
    if i < |slots| { CookiesMeetSlots(s, t, d, i); }
  }
}
