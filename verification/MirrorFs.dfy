/** The iterators of the mirrored file system as they run, on the handle table and the stream cache. */
module MirrorFs {
  import opened Basics
  import opened Tree
  import opened Symbols
  import IteratorCache
  import opened MirrorListing

  datatype Error = Nfs(handle: Symbols.Error) | NotDir | Io | BadCookie

  /** What opening a directory finds on disk. */
  datatype Found = Missing | NotADirectory | Unreadable | Opened(readDir: IteratorCache.ReadDir)

  datatype NextResult = Entry(handle: Id, name: Name, cookie: nat) | Eof | Failed(error: Error)

  /** The stream for a request: a fresh one for cookie 0, else the cached one of that cookie. */
  method InitializeReadDir(symbols: Symbols.SymbolsCache, iterators: IteratorCache.Cache, dirid: Id, cookie: U64,
                           found: Found)
    returns (r: Result<(IteratorCache.ReadDir, nat), Error>)
    requires symbols.Valid()
    modifies iterators
    ensures if dirid !in symbols.idToPath then
              r == Err(Nfs(BadHandle)) && Same(old(iterators.cache), old(iterators.counter), iterators)
            else if cookie == 0 then
              match found
              case Missing => r == Err(Nfs(NoEnt)) && Same(old(iterators.cache), old(iterators.counter), iterators)
              case NotADirectory => r == Err(NotDir) && Same(old(iterators.cache), old(iterators.counter), iterators)
              case Unreadable => r == Err(Io) && Same(old(iterators.cache), old(iterators.counter), iterators)
              case Opened(rd) =>
                && r == Ok((rd, IteratorCache.Base(old(iterators.counter)))) && iterators.cache == old(iterators.cache)
                && iterators.counter == (old(iterators.counter) + 1) % 0x1_0000_0000
            else
              var slots := IteratorCache.At(old(iterators.cache), dirid);
              var i := IteratorCache.Position(slots, cookie);
              if i == |slots| then r == Err(BadCookie) && Same(old(iterators.cache), old(iterators.counter), iterators)
              else
                && r == Ok((slots[i].readDir, slots[i].cookie)) && iterators.counter == old(iterators.counter)
                && iterators.cache == old(iterators.cache)[dirid := IteratorCache.SwapRemove(slots, i)]
  {
    var dirPath := symbols.HandleToPath(dirid);
    if dirPath.Err? { return Err(Nfs(dirPath.error)); }
    if cookie == 0 {
      match found
      case Missing => return Err(Nfs(NoEnt));
      case NotADirectory => return Err(NotDir);
      case Unreadable => return Err(Io);
      case Opened(readDir) =>
        var base := iterators.GenerateBaseCookie();
        return Ok((readDir, base));
    }
    var cached := iterators.PopState(dirid, cookie);
    if cached.None? { return Err(BadCookie); }
    r := Ok((cached.value.readDir, cached.value.cookie));
  }

  predicate Same(cache: IteratorCache.Slots, counter: U32, iterators: IteratorCache.Cache)
    reads iterators
  {
    iterators.cache == cache && iterators.counter == counter
  }

  class MirrorFsIterator {
    const symbols: Symbols.SymbolsCache
    const iterators: IteratorCache.Cache
    const dirid: Id
    var readDir: Option<IteratorCache.ReadDir>
    var cookie: nat

    function View(): Iter
      reads this
    {
      Iter(dirid, readDir, cookie)
    }

    /** Its directory has a handle, and handles are never forgotten. */
    ghost predicate Valid()
      reads this, symbols, symbols.symbols
    {
      symbols.Valid() && dirid in symbols.idToPath
    }

    constructor (symbols: Symbols.SymbolsCache, iterators: IteratorCache.Cache, dirid: Id,
                 readDir: Option<IteratorCache.ReadDir>, cookie: nat)
      requires symbols.Valid() && dirid in symbols.idToPath
      ensures Valid() && View() == Iter(dirid, readDir, cookie)
      ensures this.symbols == symbols && this.iterators == iterators
    {
      this.symbols := symbols;
      this.iterators := iterators;
      this.dirid := dirid;
      this.readDir := readDir;
      this.cookie := cookie;
    }

    /** Neither of the two lookups can fail. */
    method HandleFor(name: Name) returns (handle: Id)
      requires Valid() && symbols.nextId < U64_LIMIT - 1
      modifies symbols, symbols.symbols
      ensures Valid() && Grows(old(symbols.State()), symbols.State()) && handle in symbols.idToPath
      ensures PathOf(symbols.State(), handle) == PathOf(old(symbols.State()), dirid) + [name]
    {
      ghost var before := symbols.State();
      LookupNames(before, dirid, name, false, OnDisk(false, false));
      var parentSymbols := symbols.SymbolsPath(dirid);
      if parentSymbols.Err? { assert false; }
      LookupKeepsSound(before, parentSymbols.value, name, false, OnDisk(false, false));
      var found := symbols.LookupPath(parentSymbols.value, name, false, OnDisk(false, false));
      if found.Err? { assert false; }
      handle := found.value;
    }

    /** Pulls one entry and gives it a handle. The handle table never fails here, so an entry pulled is
        an entry given out, and the handle stands for the directory's path and the name. */
    method NextEntryCommon(fault: bool) returns (r: NextResult)
      requires Valid() && symbols.nextId < U64_LIMIT - 1
      modifies this, symbols, symbols.symbols
      ensures Valid() && Grows(old(symbols.State()), symbols.State())
      ensures View() == Pulled(old(View()), fault).0
      ensures match Pulled(old(View()), fault).1
              case Eof => r == NextResult.Eof && symbols.State() == old(symbols.State())
              case Fault => r == Failed(Io) && symbols.State() == old(symbols.State())
              case Entry(name, c) =>
                && r.Entry? && r.name == name && r.cookie == c && r.handle in symbols.idToPath
                && PathOf(symbols.State(), r.handle) == PathOf(old(symbols.State()), dirid) + [name]
    {
      if readDir.None? { return NextResult.Eof; }
      if fault { return Failed(Io); }
      var rd := readDir.value;
      if rd.pos < |rd.names| {
        var name := rd.names[rd.pos];
        readDir := Some(rd.(pos := rd.pos + 1));
        var handle := HandleFor(name);
        cookie := cookie + 1;
        r := NextResult.Entry(handle, name, cookie);
      } else {
        readDir := None;
        r := NextResult.Eof;
      }
    }

    /** An iterator that goes away leaves its stream to the next one. */
    method Drop(now: nat)
      modifies this, iterators
      ensures View() == old(View()).(readDir := None) && iterators.counter == old(iterators.counter)
      ensures iterators.cache ==
              if old(readDir.Some?) then
                var slot := IteratorCache.Slot(old(cookie), now, old(readDir.value));
                IteratorCache.Put(old(iterators.cache), dirid, slot, iterators.maxPerDir)
              else old(iterators.cache)
    {
      if readDir.None? { return; }
      var taken := readDir.value;
      readDir := None;
      iterators.CacheState(dirid, cookie, taken, now);
    }
  }

  /** Getting an iterator is the opening step of the state machine, whatever the rest of the state. */
  method GetOrCreateIterator(symbols: Symbols.SymbolsCache, iterators: IteratorCache.Cache, dirid: Id, cookie: U64,
                             found: Found, ghost s: State, ghost it: nat)
    returns (r: Result<MirrorFsIterator, Error>)
    requires symbols.Valid() && Same(s.cache, s.counter, iterators) && it !in s.live
    requires found.Opened? ==> found.readDir.listing == |s.listings| && found.readDir.pos == 0
    modifies iterators
    ensures if r.Ok? then
              && fresh(r.value) && r.value.Valid() && r.value.iterators == iterators
              && Continues(s, if found.Opened? then found.readDir.names else [], it, dirid, cookie, r.value, iterators)
            else
              Same(s.cache, s.counter, iterators) && (r.error == BadCookie ==> Reopen(s, it, dirid, cookie) == s)
  {
    var stream := InitializeReadDir(symbols, iterators, dirid, cookie, found);
    if stream.Err? { return Err(stream.error); }
    var (readDir, start) := stream.value;
    var iter := new MirrorFsIterator(symbols, iterators, dirid, Some(readDir), start);
    r := Ok(iter);
  }

  ghost predicate Continues(s: State, names: seq<Name>, it: nat, dirid: Id, cookie: U64, iter: MirrorFsIterator,
                            iterators: IteratorCache.Cache)
    requires it !in s.live
    reads iter, iterators
  {
    var s' := if cookie == 0 then OpenFresh(s, it, dirid, names) else Reopen(s, it, dirid, cookie);
    it in s'.live && iter.View() == s'.live[it] && Same(s'.cache, s'.counter, iterators)
  }
}
