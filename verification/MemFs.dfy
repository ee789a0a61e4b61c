/** The in-memory file system as it is built: entries in one map, changed in place. */
module MemFs {
  import opened Basics
  import opened Tree
  import TreeOps
  import TreeRuns
  import FileData

  datatype Time = Time(seconds: U32, nseconds: U32)

  /** The attributes that vary; type, mode, link count, device and file system id are constants. */
  datatype Attr = Attr(fileid: Id, uid: U32, gid: U32, size: nat, used: nat, atime: Time, mtime: Time, ctime: Time)

  /** A directory's content is a hash set; it is kept here in its current iteration order. */
  datatype Entry =
    | File(name: Name, attr: Attr, data: seq<Byte>, verf: seq<Byte>)
    | Dir(name: Name, attr: Attr, parent: Id, content: seq<Id>)

  datatype SetTime = DONT_CHANGE | SET_TO_CLIENT_TIME(time: Time) | SET_TO_SERVER_TIME

  datatype SetAttr = SetAttr(uid: Option<U32>, gid: Option<U32>, size: Option<nat>, atime: SetTime, mtime: SetTime)

  const UNCHANGED: SetAttr := SetAttr(None, None, None, DONT_CHANGE, DONT_CHANGE)

  function NewDir(name: Name, id: Id, parent: Id, now: Time): Entry {
    Dir(name, Attr(id, 507, 507, 0, 0, now, now, now), parent, [])
  }

  function NewFile(name: Name, id: Id, data: seq<Byte>, verf: seq<Byte>, now: Time): Entry {
    File(name, Attr(id, 507, 507, |data|, |data|, now, now, now), data, verf)
  }

  function Resize(f: Entry, size: nat): Entry
    requires f.File?
  {
    f.(data := FileData.Resized(f.data, size), attr := f.attr.(size := size, used := size))
  }

  function NewTime(t: SetTime, prev: Time, now: Time): Time {
    match t
    case DONT_CHANGE => prev
    case SET_TO_CLIENT_TIME(c) => c
    case SET_TO_SERVER_TIME => now
  }

  function WithAttr(e: Entry, s: SetAttr, now: Time): Entry {
    var a := e.attr.(
      atime := NewTime(s.atime, e.attr.atime, now), mtime := NewTime(s.mtime, e.attr.mtime, now),
      uid := if s.uid.Some? then s.uid.value else e.attr.uid,
      gid := if s.gid.Some? then s.gid.value else e.attr.gid);
    var e1 := e.(attr := a);
    if s.size.Some? && e1.File? then Resize(e1, s.size.value) else e1
  }

  predicate TimeIsSet(t: SetTime, before: Time, now: Time, after: Time) {
    && (t == DONT_CHANGE ==> after == before) && (t == SET_TO_SERVER_TIME ==> after == now)
    && (t.SET_TO_CLIENT_TIME? ==> after == t.time)
  }

  /** What was asked for is as asked for, the rest as it was; only a file has a size to set. */
  predicate AttributesAreSet(e: Entry, s: SetAttr, now: Time, e': Entry) {
    var a, a' := e.attr, e'.attr;
    && TimeIsSet(s.atime, a.atime, now, a'.atime) && TimeIsSet(s.mtime, a.mtime, now, a'.mtime) && a'.ctime == a.ctime
    && a'.uid == (if s.uid.Some? then s.uid.value else a.uid)
    && a'.gid == (if s.gid.Some? then s.gid.value else a.gid)
    && a'.fileid == a.fileid && e'.name == e.name
    && (e.Dir? ==> e'.Dir? && e'.parent == e.parent && e'.content == e.content)
    && (e.Dir? ==> a'.size == a.size && a'.used == a.used)
    && (e.File? ==> e'.File? && e'.verf == e.verf)
    && (e.File? && s.size.None? ==> e'.data == e.data && a'.size == a.size && a'.used == a.used)
    && (e.File? && s.size.Some? ==>
          && |e'.data| == a'.size == a'.used == s.size.value
          && forall i :: 0 <= i < |e'.data| ==> e'.data[i] == if i < |e.data| then e.data[i] else 0)
  }

  lemma AttributesGetSet(e: Entry, s: SetAttr, now: Time)
    ensures AttributesAreSet(e, s, now, WithAttr(e, s, now))
  {}

  // ---- The structure behind the entries ----

  predicate NoDuplicates(s: seq<Id>) {
    forall i, j :: 0 <= i < j < |s| ==> s[i] != s[j]
  }

  function Elements(s: seq<Id>): set<Id> {
    set x | x in s
  }

  function NodeOf(e: Entry): Node {
    match e
    case File(name, _, _, _) => FileNode(name)
    case Dir(name, _, parent, content) => DirNode(name, parent, Elements(content))
  }

  function NodesOf(entries: map<Id, Entry>): Nodes {
    map k | k in entries :: NodeOf(entries[k])
  }

  /** What every entry says of itself: its id, its size, and no repeated child. */
  predicate WellKept(entries: map<Id, Entry>) {
    forall k :: k in entries ==>
      && entries[k].attr.fileid == k
      && (entries[k].Dir? ==> NoDuplicates(entries[k].content) && entries[k].attr.size == entries[k].attr.used == 0)
      && (entries[k].File? ==> entries[k].attr.size == entries[k].attr.used == |entries[k].data|)
  }

  /** Nothing is new, and nothing has changed but names, parents and contents. */
  predicate SameData(before: map<Id, Entry>, after: map<Id, Entry>) {
    forall k :: k in after ==>
      && k in before && after[k].attr == before[k].attr && (after[k].File? <==> before[k].File?)
      && (after[k].File? ==> after[k].data == before[k].data && after[k].verf == before[k].verf)
  }

  /** Directory `d` has `id` in its content as well, and everything else is as it was. */
  predicate Joined(before: map<Id, Entry>, after: map<Id, Entry>, d: Id, id: Id) {
    && d in before && before[d].Dir? && d in after && after[d].Dir?
    && after == before[d := before[d].(content := after[d].content)]
    && Elements(after[d].content) == Elements(before[d].content) + {id}
  }

  lemma NodesOfUpdate(entries: map<Id, Entry>, k: Id, e: Entry)
    ensures NodesOf(entries[k := e]) == NodesOf(entries)[k := NodeOf(e)]
  {}

  lemma NodesOfRemove(entries: map<Id, Entry>, k: Id)
    ensures NodesOf(entries - {k}) == NodesOf(entries) - {k}
  {}

  // ---- Lookup ----

  /** Scans a directory in iteration order. */
  function Scan(entries: map<Id, Entry>, ids: seq<Id>, name: Name): Result<Id, Status> {
    if ids == [] then Err(NOENT)
    else if ids[0] !in entries then Err(SERVERFAULT)
    else if entries[ids[0]].name == name then Ok(ids[0])
    else Scan(entries, ids[1..], name)
  }

  function LookupIn(entries: map<Id, Entry>, d: Id, name: Name): Result<Id, Status> {
    if d !in entries then Err(NOENT)
    else match entries[d]
      case File(_, _, _, _) => Err(NOTDIR)
      case Dir(_, _, parent, content) =>
        if name == DOT then Ok(d)
        else if name == DOTDOT then if parent in entries then Ok(parent) else Err(SERVERFAULT)
        else Scan(entries, content, name)
  }

  lemma {:induction false} ScanFinds(entries: map<Id, Entry>, ids: seq<Id>, name: Name)
    requires forall c :: c in ids ==> c in entries
    ensures match Scan(entries, ids, name)
            case Ok(c) => c in ids && c in entries && entries[c].name == name
            case Err(e) => e == NOENT && forall c :: c in ids ==> entries[c].name != name
  {
    if ids != [] { ScanFinds(entries, ids[1..], name); }
  }

  /** On a tree a lookup answers as the structure says. */
  lemma LookupFinds(entries: map<Id, Entry>, d: Id, name: Name)
    requires Linked(NodesOf(entries))
    ensures TreeOps.Finds(NodesOf(entries), d, name, LookupIn(entries, d, name))
  {
    if d in entries && entries[d].Dir? && !IsDots(name) {
      forall c | c in entries[d].content ensures c in entries { assert Owns(NodesOf(entries), d, c); }
      ScanFinds(entries, entries[d].content, name);
    }
  }

  /** Adds to a hash set, which may come out in any order. */
  method SetInsert(s: seq<Id>, x: Id) returns (s': seq<Id>, added: bool)
    requires NoDuplicates(s)
    ensures NoDuplicates(s') && Elements(s') == Elements(s) + {x} && added == (x !in s)
  {
    added := x !in s;
    s' := if added then s + [x] else s;
  }

  method SetRemove(s: seq<Id>, x: Id) returns (s': seq<Id>)
    requires NoDuplicates(s)
    ensures NoDuplicates(s') && Elements(s') == Elements(s) - {x}
  {
    if i :| 0 <= i < |s| && s[i] == x {
      s' := s[..i] + s[i + 1..];
      assert forall k :: k in s <==> k in s' || k == x;
    } else {
      s' := s;
    }
  }

  // ---- The flat file system ----

  class Fs {
    var entries: map<Id, Entry>
    const root: Id

    ghost predicate Coherent()
      reads this
    {
      root == ROOT && WellKept(entries)
    }

    ghost function Nodes(): Nodes
      reads this
    {
      NodesOf(entries)
    }

    ghost predicate Valid()
      reads this
    {
      Coherent() && IsTree(Nodes())
    }

    constructor (now: Time)
      ensures Valid() && Nodes() == TreeRuns.INITIAL.nodes
      ensures entries == map[ROOT := Dir([47], Attr(ROOT, 507, 507, 0, 0, now, now, now), 0, [])]
    {
      entries := map[ROOT := NewDir([47], ROOT, 0, now)];
      root := ROOT;
      new;
      assert Elements([]) == {};
      assert Nodes() == TreeRuns.INITIAL.nodes;
      assert PathFromTo(Nodes(), [ROOT], ROOT, ROOT);
    }

    method Lookup(dirid: Id, filename: Name) returns (r: Result<Id, Status>)
      ensures r == LookupIn(entries, dirid, filename)
    {
      if dirid !in entries { return Err(NOENT); }
      match entries[dirid]
      case File(_, _, _, _) => return Err(NOTDIR);
      case Dir(_, _, parent, content) =>
        if filename == DOT { return Ok(dirid); }
        if filename == DOTDOT {
          if parent in entries { return Ok(parent); }
          return Err(SERVERFAULT);
        }
        assert content[0..] == content;
        for i := 0 to |content|
          invariant LookupIn(entries, dirid, filename) == Scan(entries, content[i..], filename)
        {
          assert content[i..][1..] == content[i + 1..];
          if content[i] !in entries { return Err(SERVERFAULT); }
          if entries[content[i]].name == filename { return Ok(content[i]); }
        }
        return Err(NOENT);
    }

    /** An entry changes without moving. */
    method SetEntry(id: Id, entry: Entry)
      requires Coherent() && id in entries && NodeOf(entry) == NodeOf(entries[id])
      requires entry.attr.fileid == id && (entry.File? ==> entry.attr.size == entry.attr.used == |entry.data|)
      requires entry.Dir? ==> NoDuplicates(entry.content) && entry.attr.size == entry.attr.used == 0
      modifies this
      ensures Coherent() && entries == old(entries)[id := entry] && Nodes() == old(Nodes())
    {
      NodesOfUpdate(entries, id, entry);
      ghost var t := Nodes();
      entries := entries[id := entry];
      assert Nodes() == t;
    }

    method SetContent(d: Id, content: seq<Id>)
      requires Coherent() && d in entries && entries[d].Dir? && NoDuplicates(content)
      modifies this
      ensures Coherent() && entries == old(entries)[d := old(entries)[d].(content := content)]
      ensures Nodes() == old(Nodes())[d := old(Nodes())[d].(kids := Elements(content))]
    {
      NodesOfUpdate(entries, d, entries[d].(content := content));
      entries := entries[d := entries[d].(content := content)];
    }

    method Push(parent: Id, id: Id, entry: Entry) returns (r: TreeOps.Reply)
      requires Valid() && entry.attr.fileid == id
      requires entry.Dir? ==> entry.content == [] && entry.attr.size == entry.attr.used == 0
      requires entry.File? ==> entry.attr.size == entry.attr.used == |entry.data|
      modifies this
      ensures Coherent()
      ensures var o := TreeOps.Push(old(Nodes()), parent, id, NodeOf(entry)); Nodes() == o.nodes && r == o.reply
      ensures if r.Ok? then Joined(old(entries)[id := entry], entries, parent, id) else entries == old(entries)
    {
      ghost var t := Nodes();
      if id in entries { return Err(EXIST); }
      entries := entries[id := entry];
      NodesOfUpdate(old(entries), id, entry);
      if parent !in entries {
        entries := entries - {id};
        assert entries == old(entries);
        r := Err(NOENT);
      } else if entries[parent].File? {
        entries := entries - {id};
        assert entries == old(entries);
        r := Err(NOTDIR);
      } else {
        var dir := entries[parent];
        assert id !in dir.content by { if id in dir.content { assert Owns(t, parent, id); } }
        var content, added := SetInsert(dir.content, id);
        assert added;
        SetContent(parent, content);
        r := Ok(());
      }
    }

    method Remove(dirid: Id, filename: Name) returns (r: TreeOps.Reply)
      requires Valid()
      modifies this
      ensures Valid()
      ensures TreeOps.Finds(old(Nodes()), dirid, filename, LookupIn(old(entries), dirid, filename))
      ensures var o := TreeOps.Remove(old(Nodes()), dirid, filename, LookupIn(old(entries), dirid, filename));
              && Nodes() == o.nodes && r == o.reply && (r.Err? ==> entries == old(entries))
      ensures SameData(old(entries), entries)
    {
      ghost var t := Nodes();
      LookupFinds(entries, dirid, filename);
      TreeOps.RemoveKeepsTree(t, dirid, filename, LookupIn(entries, dirid, filename));
      if filename == DOT || filename == DOTDOT { return Err(INVAL); }
      var found := Lookup(dirid, filename);
      if found.Err? { return Err(found.error); }
      var id := found.value;
      var entry := entries[id];
      if entry.Dir? && entry.content != [] {
        assert entry.content[0] in t[id].kids;
        return Err(NOTEMPTY);
      }
      OwnerIsOther(t, dirid, id);
      NodesOfRemove(entries, id);
      entries := entries - {id};
      var dir := entries[dirid];
      var content := SetRemove(dir.content, id);
      SetContent(dirid, content);
      r := Ok(());
    }

    /** The loop that keeps a directory from being moved into its own subtree. */
    method CheckNotBelow(fromId: Id, toDirid: Id) returns (r: TreeOps.Reply)
      requires Valid()
      ensures r == if toDirid == fromId then Err(INVAL)
                   else if toDirid !in entries then Err(NOENT)
                   else if entries[toDirid].File? then Err(SERVERFAULT)
                   else if Below(Nodes(), fromId, toDirid) then Err(INVAL) else Ok(())
    {
      ghost var t := Nodes();
      var current := toDirid;
      while true
        invariant current != toDirid ==>
          && current in t && t[current].DirNode? && toDirid in t && t[toDirid].DirNode? && toDirid != fromId
        invariant Below(t, fromId, current) <==> Below(t, fromId, toDirid)
        decreases if current in t then Depths(t)[current] else 0
      {
        if current == fromId {
          BelowSelf(t, fromId);
          return Err(INVAL);
        }
        if current !in entries { return Err(NOENT); }
        match entries[current]
        case Dir(_, _, parent, _) =>
          if current == root {
            BelowRoot(t, fromId);
            return Ok(());
          }
          DirHasParent(t, current);
          BelowStep(t, fromId, parent, current);
          current := parent;
        case File(_, _, _, _) =>
          return Err(SERVERFAULT);
      }
    }

    /** The steps of a rename once the target name is free. */
    method Relink(fd: Id, x: Id, td: Id, tn: Name) returns (r: TreeOps.Reply)
      requires Coherent()
      modifies this
      ensures Coherent()
      ensures var o := TreeOps.Relink(old(Nodes()), fd, x, td, tn); Nodes() == o.nodes && r == o.reply
      ensures SameData(old(entries), entries)
    {
      if fd !in entries { return Err(SERVERFAULT); }
      var fromDir := entries[fd];
      if fromDir.File? { return Err(NOTDIR); }
      var fromContent := SetRemove(fromDir.content, x);
      SetContent(fd, fromContent);
      r := PutInto(x, td, tn);
    }

    method PutInto(x: Id, td: Id, tn: Name) returns (r: TreeOps.Reply)
      requires Coherent()
      modifies this
      ensures Coherent()
      ensures var o := TreeOps.PutInto(old(Nodes()), x, td, tn); Nodes() == o.nodes && r == o.reply
      ensures SameData(old(entries), entries)
    {
      if td !in entries { return Err(SERVERFAULT); }
      var toDir := entries[td];
      if toDir.File? { return Err(NOTDIR); }
      var toContent, added := SetInsert(toDir.content, x);
      SetContent(td, toContent);
      if !added {
        assert Elements(toContent) == Elements(toDir.content);
        return Err(SERVERFAULT);
      }

      if x !in entries { return Err(SERVERFAULT); }
      SetName(x, td, tn);
      r := Ok(());
    }

    /** A directory gets its new parent as well. */
    method SetName(x: Id, td: Id, tn: Name)
      requires Coherent() && x in entries
      modifies this
      ensures Coherent() && SameData(old(entries), entries)
      ensures Nodes() == old(Nodes())[x := Renamed(old(Nodes())[x], tn, td)]
    {
      var entry := entries[x].(name := tn);
      if entry.Dir? { entry := entry.(parent := td); }
      NodesOfUpdate(entries, x, entry);
      entries := entries[x := entry];
    }

    /** What a rename does about an entry that has the new name: it goes when it is of the same kind
        and empty. */
    method MakeRoom(fromId: Id, td: Id, tn: Name) returns (r: TreeOps.Reply)
      requires Valid() && fromId in entries
      modifies this
      ensures Valid() && SameData(old(entries), entries)
      ensures TreeOps.Finds(old(Nodes()), td, tn, LookupIn(old(entries), td, tn))
      ensures var y := LookupIn(old(entries), td, tn);
              var clash := TreeOps.Clash(old(Nodes()), fromId, y);
              if clash.Some? then r == Err(clash.value) && entries == old(entries)
              else if y.Ok? && IsDots(tn) then r == Err(INVAL) && entries == old(entries)
              else r == Ok(()) && Nodes() == if y.Ok? then Unlink(old(Nodes()), td, y.value) else old(Nodes())
    {
      ghost var t := Nodes();
      LookupFinds(entries, td, tn);
      var isDir := entries[fromId].Dir?;
      var to := Lookup(td, tn);
      match to
      case Err(e) =>
        r := if e != NOENT then Err(e) else Ok(());
      case Ok(toId) =>
        if isDir != entries[toId].Dir? { return Err(NOTDIR); }
        if isDir && entries[toId].content != [] {
          assert entries[toId].content[0] in t[toId].kids;
          return Err(NOTEMPTY);
        }
        assert IsLeaf(t[toId]);
        r := Remove(td, tn);
    }

    /** Whatever the names, the effect is the specified one; the tree survives exactly when the
        rename is neither of a "." or ".." that gets relinked nor of a file into nowhere. */
    method Rename(fd: Id, fn: Name, td: Id, tn: Name) returns (r: TreeOps.Reply)
      requires Valid()
      modifies this
      ensures Coherent()
      ensures TreeOps.Finds(old(Nodes()), fd, fn, LookupIn(old(entries), fd, fn))
      ensures TreeOps.Finds(old(Nodes()), td, tn, LookupIn(old(entries), td, tn))
      ensures var x, y := LookupIn(old(entries), fd, fn), LookupIn(old(entries), td, tn);
              var o := TreeOps.Rename(old(Nodes()), fd, fn, x, td, tn, y);
              && Nodes() == o.nodes && r == o.reply
              && (Valid() <==>
                    && !TreeOps.DotMove(old(Nodes()), fd, fn, x, td, tn, y)
                    && !TreeOps.OrphanMove(old(Nodes()), x, td))
      ensures SameData(old(entries), entries)
    {
      ghost var t := Nodes();
      LookupFinds(entries, fd, fn);
      LookupFinds(entries, td, tn);
      TreeOps.RenameKeepsTreeIff(t, fd, fn, LookupIn(entries, fd, fn), td, tn, LookupIn(entries, td, tn));

      var from := Lookup(fd, fn);
      if from.Err? { return Err(from.error); }
      var fromId := from.value;
      var isDir := entries[fromId].Dir?;

      if fd == td && fn == tn { return Ok(()); }

      var free := MakeRoom(fromId, td, tn);
      if free.Err? { return free; }
      if LookupIn(old(entries), td, tn).Ok? {
        ghost var toId := LookupIn(old(entries), td, tn).value;
        OwnerIsOther(t, td, toId);
        BelowWithoutLeaf(t, td, toId, fromId, td);
      }

      if isDir {
        var outside := CheckNotBelow(fromId, td);
        BelowSelf(t, td);
        if outside.Err? { return outside; }
      }
      r := Relink(fd, fromId, td, tn);
    }
  }

  lemma DirHasParent(t: Nodes, d: Id)
    requires IsTree(t) && d in t && d != ROOT && t[d].DirNode?
    ensures Owns(t, t[d].parent, d) && t[d].parent in t && t[t[d].parent].DirNode?
    ensures Depths(t)[d] == Depths(t)[t[d].parent] + 1
  {
    var depth := Depths(t);
    var o :| Owns(t, o, d);
  }
}
