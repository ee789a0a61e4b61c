/** The mirror file system's table of handles: every path ever seen, by interned names. */
module Symbols {
  import opened Basics
  import opened Tree

  type Symbol = nat
  type Path = seq<Symbol>

  datatype Error = BadHandle | NoEnt

  /** The intern table, the two maps and the handle counter. */
  datatype Cache = Cache(names: seq<Name>, pathToId: map<Path, Id>, idToPath: map<Id, Path>, nextId: nat)

  const EMPTY: Cache := Cache([], map[[] := ROOT], map[ROOT := []], ROOT + 1)

  // ---- Names and paths ----

  /** The position of a name, or the length when it is not there. */
  function IndexOf(names: seq<Name>, name: Name): (i: nat)
    ensures i <= |names| && (i < |names| ==> names[i] == name)
    ensures forall j :: 0 <= j < i ==> names[j] != name
  {
    if names == [] || names[0] == name then 0 else 1 + IndexOf(names[1..], name)
  }

  function Interned(names: seq<Name>, name: Name): seq<Name> {
    if IndexOf(names, name) < |names| then names else names + [name]
  }

  predicate Known(path: Path, n: nat) {
    forall k :: 0 <= k < |path| ==> path[k] < n
  }

  function Resolved(names: seq<Name>, path: Path): (r: seq<Name>)
    requires Known(path, |names|)
    ensures |r| == |path| && forall k :: 0 <= k < |path| ==> r[k] == names[path[k]]
  {
    if path == [] then []
    else Resolved(names, path[..|path| - 1]) + [names[path[|path| - 1]]]
  }

  predicate Distinct(names: seq<Name>) {
    forall i, j :: 0 <= i < j < |names| ==> names[i] != names[j]
  }

  // ---- The invariant ----

  predicate Inverse(c: Cache) {
    && (forall p :: p in c.pathToId ==> c.pathToId[p] in c.idToPath && c.idToPath[c.pathToId[p]] == p)
    && (forall id :: id in c.idToPath ==> c.idToPath[id] in c.pathToId && c.pathToId[c.idToPath[id]] == id)
  }

  function ParentPath(p: Path): Path {
    if p == [] then [] else p[..|p| - 1]
  }

  predicate PrefixClosed(c: Cache) {
    forall p {:trigger ParentPath(p)} :: p in c.pathToId ==> ParentPath(p) in c.pathToId
  }

  predicate Sound(c: Cache) {
    && Distinct(c.names) && Inverse(c) && PrefixClosed(c)
    && (forall p :: p in c.pathToId ==> Known(p, |c.names|))
    && ROOT in c.idToPath && c.idToPath[ROOT] == []
    && forall id :: id in c.idToPath ==> ROOT <= id < c.nextId
  }

  /** What a handle stands for. */
  function PathOf(c: Cache, id: Id): seq<Name>
    requires Sound(c) && id in c.idToPath
  {
    Resolved(c.names, c.idToPath[id])
  }

  // ---- Lookup ----

  /** What the file system says when asked whether the parent and the entry are there. */
  datatype OnDisk = OnDisk(parent: bool, entry: bool)

  datatype Looked = Looked(cache: Cache, reply: Result<Id, Error>)

  function Lookup(c: Cache, parent: Path, name: Name, checkPath: bool, disk: OnDisk): Looked {
    var symbol := IndexOf(c.names, name);
    var c1 := c.(names := Interned(c.names, name));
    var item := parent + [symbol];
    if item in c.pathToId then Looked(c1, Ok(c.pathToId[item]))
    else if checkPath && !disk.parent then Looked(c1, Err(BadHandle))
    else if checkPath && !disk.entry then Looked(c1, Err(NoEnt))
    else Looked(Added(c1, item), Ok(c.nextId))
  }

  function Added(c: Cache, item: Path): Cache {
    c.(pathToId := c.pathToId[item := c.nextId], idToPath := c.idToPath[c.nextId := item],
       nextId := (c.nextId + 1) % 0x1_0000_0000_0000_0000)
  }

  function LookupById(c: Cache, parent: Id, name: Name, checkPath: bool, disk: OnDisk): Looked {
    if parent in c.idToPath then Lookup(c, c.idToPath[parent], name, checkPath, disk) else Looked(c, Err(BadHandle))
  }

  /** Nothing is ever forgotten or changed. */
  predicate Grows(c: Cache, c': Cache) {
    && c.names <= c'.names
    && (forall p :: p in c.pathToId ==> p in c'.pathToId && c'.pathToId[p] == c.pathToId[p])
    && (forall id :: id in c.idToPath ==> id in c'.idToPath && c'.idToPath[id] == c.idToPath[id])
  }

  lemma InternKeepsSound(c: Cache, name: Name)
    requires Sound(c)
    ensures Sound(c.(names := Interned(c.names, name))) && Grows(c, c.(names := Interned(c.names, name)))
    ensures IndexOf(c.names, name) < |Interned(c.names, name)|
    ensures Interned(c.names, name)[IndexOf(c.names, name)] == name
  {}

  lemma AddKeepsSound(c: Cache, parent: Path, symbol: Symbol)
    requires Sound(c) && parent in c.pathToId && symbol < |c.names| && parent + [symbol] !in c.pathToId
    requires c.nextId < U64_LIMIT - 1
    ensures Sound(Added(c, parent + [symbol])) && Grows(c, Added(c, parent + [symbol]))
  {
    assert c.nextId !in c.idToPath;
  }

  lemma LookupKeepsSound(c: Cache, parent: Path, name: Name, checkPath: bool, disk: OnDisk)
    requires Sound(c) && parent in c.pathToId && c.nextId < U64_LIMIT - 1
    ensures Sound(Lookup(c, parent, name, checkPath, disk).cache)
    ensures Lookup(c, parent, name, checkPath, disk).cache.nextId <= c.nextId + 1
    ensures Grows(c, Lookup(c, parent, name, checkPath, disk).cache)
  {
    var symbol := IndexOf(c.names, name);
    var c1 := c.(names := Interned(c.names, name));
    InternKeepsSound(c, name);
    if parent + [symbol] !in c.pathToId { AddKeepsSound(c1, parent, symbol); }
  }

  /** A handle that comes back stands for its parent's path and the name. */
  lemma LookupNames(c: Cache, parent: Id, name: Name, checkPath: bool, disk: OnDisk)
    requires Sound(c) && parent in c.idToPath && c.nextId < U64_LIMIT - 1
    ensures var Looked(c', r) := LookupById(c, parent, name, checkPath, disk);
            r.Ok? ==> Sound(c') && r.value in c'.idToPath && PathOf(c', r.value) == PathOf(c, parent) + [name]
  {
    var path := c.idToPath[parent];
    LookupKeepsSound(c, path, name, checkPath, disk);
    var looked := Lookup(c, path, name, checkPath, disk);
    if looked.reply.Ok? {
      var symbol := IndexOf(c.names, name);
      assert looked.cache.idToPath[looked.reply.value] == path + [symbol];
      assert looked.cache.names[symbol] == name;
    }
  }

  /** Two handles stand for one path only when they are one handle. */
  lemma HandlesAreDistinct(c: Cache, a: Id, b: Id)
    requires Sound(c) && a in c.idToPath && b in c.idToPath
    ensures PathOf(c, a) == PathOf(c, b) <==> a == b
  {
    var p, q := c.idToPath[a], c.idToPath[b];
    if PathOf(c, a) == PathOf(c, b) {
      forall k | 0 <= k < |p| ensures p[k] == q[k] {
        assert PathOf(c, a)[k] == PathOf(c, b)[k];
      }
      assert p == q;
    }
  }

  /** Every handle but the root's has a parent with a handle. */
  lemma ParentHasHandle(c: Cache, id: Id) returns (parent: Id)
    requires Sound(c) && id in c.idToPath && id != ROOT
    ensures parent in c.idToPath && PathOf(c, id) != [] && PathOf(c, parent) == PathOf(c, id)[..|PathOf(c, id)| - 1]
  {
    var p := c.idToPath[id];
    if p == [] { HandlesAreDistinct(c, id, ROOT); }
    parent := c.pathToId[ParentPath(p)];
  }

  predicate HasEntry(c: Cache, parent: Id, name: Name)
    requires Sound(c) && parent in c.idToPath
  {
    exists id :: id in c.idToPath && PathOf(c, id) == PathOf(c, parent) + [name]
  }

  /** A name under a handle is found exactly when it was found before, or is asked for unchecked, or is there. */
  lemma LookupIff(c: Cache, parent: Id, name: Name, checkPath: bool, disk: OnDisk)
    requires Sound(c) && parent in c.idToPath
    ensures LookupById(c, parent, name, checkPath, disk).reply.Ok?
            <==> HasEntry(c, parent, name) || !checkPath || (disk.parent && disk.entry)
  {
    if HasEntry(c, parent, name) {
      var id :| id in c.idToPath && PathOf(c, id) == PathOf(c, parent) + [name];
      SamePath(c, c.idToPath[parent], name, id);
    }
  }

  /** Why a name is not found: the parent has no handle, or is not there any more, or the name is not there. */
  lemma LookupRefuses(c: Cache, parent: Id, name: Name, checkPath: bool, disk: OnDisk)
    requires Sound(c)
    ensures var Looked(c', r) := LookupById(c, parent, name, checkPath, disk);
      && (parent !in c.idToPath ==> r == Err(BadHandle))
      && (parent in c.idToPath && !HasEntry(c, parent, name) && checkPath && !disk.parent ==> r == Err(BadHandle))
      && (parent in c.idToPath && !HasEntry(c, parent, name) && checkPath && disk.parent && !disk.entry ==>
            r == Err(NoEnt))
      && (r.Err? ==> c'.idToPath == c.idToPath && c'.pathToId == c.pathToId && c'.nextId == c.nextId)
  {
    if parent in c.idToPath { LookupIff(c, parent, name, checkPath, disk); }
  }

  /** A name found before keeps its handle; any other gets the next one. */
  lemma LookupGives(c: Cache, parent: Id, name: Name, checkPath: bool, disk: OnDisk)
    requires Sound(c) && parent in c.idToPath && LookupById(c, parent, name, checkPath, disk).reply.Ok?
    ensures var Looked(c', r) := LookupById(c, parent, name, checkPath, disk);
            if HasEntry(c, parent, name) then
              && r.value in c.idToPath && PathOf(c, r.value) == PathOf(c, parent) + [name]
              && c'.idToPath == c.idToPath && c'.nextId == c.nextId
            else
              r.value == c.nextId && r.value in c'.idToPath && c'.idToPath - {r.value} == c.idToPath - {r.value}
              && c'.nextId == (c.nextId + 1) % 0x1_0000_0000_0000_0000
  {
    EntryIff(c, parent, name);
  }

  /** A name has been found when its interned path is in the table. */
  lemma EntryIff(c: Cache, parent: Id, name: Name)
    requires Sound(c) && parent in c.idToPath
    ensures var item := c.idToPath[parent] + [IndexOf(c.names, name)];
            && (HasEntry(c, parent, name) <==> item in c.pathToId)
            && (item in c.pathToId ==> PathOf(c, c.pathToId[item]) == PathOf(c, parent) + [name])
  {
    var item := c.idToPath[parent] + [IndexOf(c.names, name)];
    if HasEntry(c, parent, name) {
      var id :| id in c.idToPath && PathOf(c, id) == PathOf(c, parent) + [name];
      SamePath(c, c.idToPath[parent], name, id);
    }
    if item in c.pathToId {
      assert item[|item| - 1] < |c.names|;
      assert PathOf(c, c.pathToId[item]) == PathOf(c, parent) + [name];
    }
  }

  lemma SamePath(c: Cache, path: Path, name: Name, id: Id)
    requires Sound(c) && id in c.idToPath
    requires Known(path, |c.names|) && PathOf(c, id) == Resolved(c.names, path) + [name]
    ensures c.idToPath[id] == path + [IndexOf(c.names, name)]
  {}

  // ---- Runs ----

  datatype Request = Request(parent: Id, name: Name, checkPath: bool, disk: OnDisk)

  ghost predicate Run(cs: seq<Cache>, requests: seq<Request>) {
    && |cs| == |requests| + 1 && cs[0] == EMPTY
    && forall i :: 0 <= i < |requests| ==> cs[i + 1] == Answer(cs[i], requests[i]).cache
  }

  function Answer(c: Cache, q: Request): Looked {
    LookupById(c, q.parent, q.name, q.checkPath, q.disk)
  }

  lemma AnswerKeepsSound(c: Cache, q: Request)
    requires Sound(c) && c.nextId < U64_LIMIT - 1
    ensures Sound(Answer(c, q).cache) && Grows(c, Answer(c, q).cache) && Answer(c, q).cache.nextId <= c.nextId + 1
  {
    if q.parent in c.idToPath { LookupKeepsSound(c, c.idToPath[q.parent], q.name, q.checkPath, q.disk); }
  }

  lemma StepKeepsSound(cs: seq<Cache>, requests: seq<Request>, i: nat)
    requires Run(cs, requests) && i < |requests| && Sound(cs[i]) && cs[i].nextId < U64_LIMIT - 1
    ensures Sound(cs[i + 1]) && Grows(cs[i], cs[i + 1]) && cs[i + 1].nextId <= cs[i].nextId + 1
  {
    AnswerKeepsSound(cs[i], requests[i]);
  }

  lemma {:induction false} RunKeepsSound(cs: seq<Cache>, requests: seq<Request>, i: nat)
    requires Run(cs, requests) && i < |cs| < U64_LIMIT - 3
    ensures Sound(cs[i]) && cs[i].nextId <= 2 + i
  {
    if i > 0 {
      RunKeepsSound(cs, requests, i - 1);
      StepKeepsSound(cs, requests, i - 1);
    }
  }

  lemma {:induction false} RunGrows(cs: seq<Cache>, requests: seq<Request>, i: nat, j: nat)
    requires Run(cs, requests) && i <= j < |cs| < U64_LIMIT - 3
    ensures Sound(cs[i]) && Sound(cs[j]) && Grows(cs[i], cs[j])
    decreases j - i
  {
    RunKeepsSound(cs, requests, i);
    if i < j {
      RunGrows(cs, requests, i, j - 1);
      RunKeepsSound(cs, requests, j - 1);
      StepKeepsSound(cs, requests, j - 1);
    }
  }

  /** Once a name under a handle has a handle, it is the answer to that name for the rest of the run,
      checked or not and whatever happens on disk; and it stands for the same path all along. */
  lemma HandleIsForever(cs: seq<Cache>, requests: seq<Request>, i: nat, j: nat)
    requires Run(cs, requests) && |cs| < U64_LIMIT - 3
    requires i < j < |requests| && Answer(cs[i], requests[i]).reply.Ok?
    requires requests[j].parent == requests[i].parent && requests[j].name == requests[i].name
    ensures Answer(cs[j], requests[j]).reply == Answer(cs[i], requests[i]).reply
    ensures var h := Answer(cs[i], requests[i]).reply.value;
            && Sound(cs[i + 1]) && Sound(cs[j]) && h in cs[i + 1].idToPath && h in cs[j].idToPath
            && PathOf(cs[j], h) == PathOf(cs[i + 1], h)
  {
    RunGrows(cs, requests, i, i + 1);
    RunGrows(cs, requests, i + 1, j);
    var c, q := cs[i], requests[i];
    RunKeepsSound(cs, requests, i);
    assert cs[i + 1] == Answer(c, q).cache;
    LookupNames(c, q.parent, q.name, q.checkPath, q.disk);
    var h := Answer(c, q).reply.value;
    LaterAnswer(cs[i + 1], cs[j], h);
    LaterAnswer(c, cs[j], q.parent);
    var q' := requests[j];
    SamePath(cs[j], cs[j].idToPath[q.parent], q.name, h);
  }

  lemma LaterAnswer(a: Cache, b: Cache, h: Id)
    requires Sound(a) && Sound(b) && Grows(a, b) && h in a.idToPath
    ensures h in b.idToPath && PathOf(b, h) == PathOf(a, h)
  {}

  // ---- The code ----

  /** Takes a name to its symbol, which is new when the name is. */
  class SymbolsTable {
    var table: seq<Name>

    constructor ()
      ensures table == []
    {
      table := [];
    }

    method InsertOrResolve(name: Name) returns (symbol: Symbol)
      modifies this
      ensures table == Interned(old(table), name) && symbol == IndexOf(old(table), name)
    {
      symbol := IndexOf(table, name);
      if symbol == |table| { table := table + [name]; }
    }

    /** Every symbol of a known path is found. */
    method ResolvePath(path: Path) returns (pathBuf: seq<Name>)
      requires Known(path, |table|)
      ensures pathBuf == Resolved(table, path)
    {
      pathBuf := [];
      for i := 0 to |path|
        invariant |pathBuf| == i && forall k :: 0 <= k < i ==> pathBuf[k] == table[path[k]]
      {
        pathBuf := pathBuf + [table[path[i]]];
      }
    }
  }

  class SymbolsCache {
    const symbols: SymbolsTable
    var pathToId: map<Path, Id>
    var idToPath: map<Id, Path>
    var nextId: nat

    function State(): Cache
      reads this, symbols
    {
      Cache(symbols.table, pathToId, idToPath, nextId)
    }

    ghost predicate Valid()
      reads this, symbols
    {
      Sound(State())
    }

    constructor ()
      ensures Valid() && State() == EMPTY && fresh(symbols)
    {
      symbols := new SymbolsTable();
      pathToId := map[[] := ROOT];
      idToPath := map[ROOT := []];
      nextId := ROOT + 1;
    }

    method SymbolsPath(id: Id) returns (r: Result<Path, Error>)
      ensures r == if id in idToPath then Ok(idToPath[id]) else Err(BadHandle)
    {
      r := if id in idToPath then Ok(idToPath[id]) else Err(BadHandle);
    }

    method HandleToPath(id: Id) returns (r: Result<seq<Name>, Error>)
      requires Valid()
      ensures r == if id in idToPath then Ok(PathOf(State(), id)) else Err(BadHandle)
    {
      if id !in idToPath { return Err(BadHandle); }
      var path := symbols.ResolvePath(idToPath[id]);
      r := Ok(path);
    }

    /** Paths come from `SymbolsPath`. Handles do not run out. */
    method LookupPath(parent: Path, name: Name, checkPath: bool, disk: OnDisk) returns (r: Result<Id, Error>)
      requires Valid() && parent in pathToId && nextId < U64_LIMIT - 1
      modifies this, symbols
      ensures Valid() && State() == Lookup(old(State()), parent, name, checkPath, disk).cache
      ensures r == Lookup(old(State()), parent, name, checkPath, disk).reply
    {
      ghost var before := State();
      LookupKeepsSound(before, parent, name, checkPath, disk);
      InternKeepsSound(before, name);
      var symbol := symbols.InsertOrResolve(name);
      var item := parent + [symbol];
      if item in pathToId { return Ok(pathToId[item]); }
      if checkPath {
        var _ := symbols.ResolvePath(parent);
        if !disk.parent { return Err(BadHandle); }
        if !disk.entry { return Err(NoEnt); }
      }
      var id := Register(item);
      r := Ok(id);
    }

    method Register(item: Path) returns (id: Id)
      modifies this
      ensures State() == Added(old(State()), item) && id == old(nextId)
    {
      id := nextId;
      nextId := (nextId + 1) % 0x1_0000_0000_0000_0000;
      pathToId := pathToId[item := id];
      idToPath := idToPath[id := item];
    }

    method LookupByHandle(parent: Id, name: Name, checkPath: bool, disk: OnDisk) returns (r: Result<Id, Error>)
      requires Valid() && nextId < U64_LIMIT - 1
      modifies this, symbols
      ensures Valid() && State() == LookupById(old(State()), parent, name, checkPath, disk).cache
      ensures r == LookupById(old(State()), parent, name, checkPath, disk).reply
    {
      var path :- SymbolsPath(parent);
      r := LookupPath(path, name, checkPath, disk);
    }
  }
}
