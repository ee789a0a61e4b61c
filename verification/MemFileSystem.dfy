/** The file system with its id counter, and the requests that reach it through the handlers. */
module MemFileSystem {
  import opened Basics
  import opened Tree
  import opened MemFs
  import FileData
  import TreeOps
  import TreePaths
  import TreeRuns

  const DEFAULT_VERF: seq<Byte> := [0, 0, 0, 0, 0, 0, 0, 0]

  /** How a file is to be created: replacing nothing without saying so, replacing nothing at all, or once
      for a verifier. */
  datatype CreateHow = UNCHECKED(attr: SetAttr) | GUARDED(attr: SetAttr) | EXCLUSIVE(verf: seq<Byte>)

  /** Every file's data is what the writes and resizes it has had since it was created make of nothing. */
  predicate Logged(entries: map<Id, Entry>, edits: map<Id, seq<FileData.Edit>>) {
    forall k :: k in entries && entries[k].File? ==> k in edits && entries[k].data == FileData.ApplyAll(edits[k])
  }

  /** A new file gets its content, then its size if one is asked for. */
  function FirstEdits(data: seq<Byte>, attr: SetAttr): seq<FileData.Edit> {
    [FileData.Write(0, data)] + if attr.size.Some? then [FileData.Resize(attr.size.value)] else []
  }

  lemma FirstEditsMakeFile(name: Name, id: Id, data: seq<Byte>, verf: seq<Byte>, attr: SetAttr, now: Time)
    ensures WithAttr(NewFile(name, id, data, verf, now), attr, now).data == FileData.ApplyAll(FirstEdits(data, attr))
  {
    FileData.FirstWrite(data);
    if attr.size.Some? {
    } else {
      assert FirstEdits(data, attr) == [FileData.Write(0, data)];
    }
  }

  /** Whatever happens to the structure, files that keep their data keep their log. */
  lemma SameDataIsLogged(before: map<Id, Entry>, after: map<Id, Entry>, edits: map<Id, seq<FileData.Edit>>)
    requires Logged(before, edits) && SameData(before, after)
    ensures Logged(after, edits)
  {}

  /** A rename by directories that are there that relinks "." or "..". */
  ghost predicate RelinksDots(entries: map<Id, Entry>, fd: Id, fn: Name, td: Id, tn: Name)
    requires IsTree(NodesOf(entries))
  {
    LookupFinds(entries, fd, fn);
    LookupFinds(entries, td, tn);
    && fd in entries && td in entries
    && TreeOps.DotMove(NodesOf(entries), fd, fn, LookupIn(entries, fd, fn), td, tn, LookupIn(entries, td, tn))
  }

  /** A new file, unless the name is taken or cannot be looked up. */
  ghost predicate Adds(before: map<Id, Entry>, d: Id, name: Name, attr: SetAttr, data: seq<Byte>,
                       verf: Option<seq<Byte>>, now: Time, id: Id, r: Result<Id, Status>, after: map<Id, Entry>)
  {
    match LookupIn(before, d, name)
    case Ok(c) =>
      && after == before && c in before
      && r == if before[c].File? && verf == Some(before[c].verf) then Ok(c) else Err(EXIST)
    case Err(e) =>
      if e != NOENT then r == Err(e) && after == before
      else if d !in before then r == Err(if d == id then NOTDIR else NOENT) && after == before
      else
        var file := NewFile(name, id, data, if verf.Some? then verf.value else DEFAULT_VERF, now);
        r == Ok(id) && id !in before && Joined(before[id := WithAttr(file, attr, now)], after, d, id)
  }

  /** What a create answers, and the file it makes. */
  ghost predicate Creates(before: map<Id, Entry>, d: Id, name: Name, how: CreateHow, now: Time, id: Id,
                          r: Result<Id, Status>, after: map<Id, Entry>)
  {
    if d !in before then r == Err(NOENT) && after == before
    else if before[d].File? then r == Err(NOTDIR) && after == before
    else match LookupIn(before, d, name)
      case Ok(c) =>
        && after == before && c in before
        && r == if how.EXCLUSIVE? && before[c].File? && before[c].verf == how.verf then Ok(c) else Err(EXIST)
      case Err(e) =>
        if e != NOENT then r == Err(e) && after == before
        else
          && r == Ok(id) && id !in before && id in after && IsNewFile(after[id], id, name, how, now)
          && Joined(before[id := after[id]], after, d, id)
  }

  /** A file of zeros of the size asked for, with the owner and times asked for; made for a verifier, it keeps that
      and is empty. */
  predicate IsNewFile(e: Entry, id: Id, name: Name, how: CreateHow, now: Time) {
    && e.File? && e.name == name && e.attr.fileid == id && e.attr.size == e.attr.used == |e.data| && e.attr.ctime == now
    && (forall i :: 0 <= i < |e.data| ==> e.data[i] == 0)
    && if how.EXCLUSIVE? then
         e.verf == how.verf && e.data == [] && e.attr.uid == e.attr.gid == 507 && e.attr.atime == e.attr.mtime == now
       else
         && e.verf == [0, 0, 0, 0, 0, 0, 0, 0]
         && |e.data| == (if how.attr.size.Some? then how.attr.size.value else 0)
         && e.attr.uid == (if how.attr.uid.Some? then how.attr.uid.value else 507)
         && e.attr.gid == (if how.attr.gid.Some? then how.attr.gid.value else 507)
         && e.attr.atime == (if how.attr.atime.SET_TO_CLIENT_TIME? then how.attr.atime.time else now)
         && e.attr.mtime == (if how.attr.mtime.SET_TO_CLIENT_TIME? then how.attr.mtime.time else now)
  }

  /** What a remove answers: it takes away a file or an empty directory of that name, and nothing else. */
  ghost predicate Removes(before: map<Id, Entry>, d: Id, name: Name, r: TreeOps.Reply, after: map<Id, Entry>) {
    && (r.Err? ==> after == before)
    && if d !in before then r == Err(NOENT)
       else if name == [46] || name == [46, 46] then r == Err(INVAL)
       else if before[d].File? then r == Err(NOTDIR)
       else if forall c :: c in before[d].content ==> c in before && before[c].name != name then r == Err(NOENT)
       else exists c :: c in before[d].content && c in before && before[c].name == name && Goes(before, c, r, after)
  }

  predicate Goes(before: map<Id, Entry>, c: Id, r: TreeOps.Reply, after: map<Id, Entry>)
    requires c in before
  {
    if before[c].Dir? && before[c].content != [] then r == Err(NOTEMPTY)
    else r == Ok(()) && after.Keys == before.Keys - {c} && SameData(before, after)
  }

  /** The reply to a rename: a missing directory is noticed first. */
  ghost predicate Renames(before: map<Id, Entry>, fd: Id, fn: Name, td: Id, tn: Name, r: TreeOps.Reply,
                          after: map<Id, Entry>)
    requires IsTree(NodesOf(before))
  {
    LookupFinds(before, fd, fn);
    LookupFinds(before, td, tn);
    TreeOps.RenameAnswers(NodesOf(before), fd, fn, LookupIn(before, fd, fn), td, tn, LookupIn(before, td, tn));
    && SameData(before, after)
    && if fd !in before || td !in before then r == Err(NOENT) && after == before
       else TreeOps.RenameSays(NodesOf(before), fd, fn, LookupIn(before, fd, fn), td, tn, LookupIn(before, td, tn),
                               TreeOps.Outcome(NodesOf(after), r))
  }

  lemma CreateIsSaid(before: map<Id, Entry>, d: Id, name: Name, how: CreateHow, now: Time, id: Id,
                     r: Result<Id, Status>, after: map<Id, Entry>)
    requires d in before
    requires match how
             case EXCLUSIVE(verf) => Adds(before, d, name, UNCHANGED, [], Some(verf), now, id, r, after)
             case _ => Adds(before, d, name, how.attr, [], None, now, id, r, after)
    ensures Creates(before, d, name, how, now, id, r, after)
  {}

  lemma RemoveIsSaid(before: map<Id, Entry>, d: Id, name: Name, r: TreeOps.Reply, after: map<Id, Entry>)
    requires IsTree(NodesOf(before)) && d in before && SameData(before, after) && (r.Err? ==> after == before)
    requires TreeOps.Finds(NodesOf(before), d, name, LookupIn(before, d, name))
    requires TreeOps.Remove(NodesOf(before), d, name, LookupIn(before, d, name)) == TreeOps.Outcome(NodesOf(after), r)
    ensures Removes(before, d, name, r, after)
  {
    var t, y := NodesOf(before), LookupIn(before, d, name);
    TreeOps.LookupAnswers(t, d, name, y);
    if before[d].Dir? && !IsDots(name) {
      assert forall c :: c in before[d].content <==> c in t[d].kids;
      if y.Ok? {
        assert y.value in before[d].content;
        assert IsLeaf(t[y.value]) <==> (before[y.value].Dir? ==> before[y.value].content == []) by {
          if before[y.value].Dir? && before[y.value].content != [] {
            assert before[y.value].content[0] in t[y.value].kids;
          }
        }
        assert after.Keys == NodesOf(after).Keys && before.Keys == t.Keys;
        if r.Ok? { OwnerIsOther(t, d, y.value); }
        assert Goes(before, y.value, r, after);
      }
    }
  }

  lemma RenameIsSaid(before: map<Id, Entry>, fd: Id, fn: Name, td: Id, tn: Name, r: TreeOps.Reply,
                     after: map<Id, Entry>)
    requires IsTree(NodesOf(before)) && fd in before && td in before && SameData(before, after)
    requires TreeOps.Finds(NodesOf(before), fd, fn, LookupIn(before, fd, fn))
    requires TreeOps.Finds(NodesOf(before), td, tn, LookupIn(before, td, tn))
    requires TreeOps.Rename(NodesOf(before), fd, fn, LookupIn(before, fd, fn), td, tn, LookupIn(before, td, tn))
          == TreeOps.Outcome(NodesOf(after), r)
    ensures Renames(before, fd, fn, td, tn, r, after)
  {
    TreeOps.RenameAnswers(NodesOf(before), fd, fn, LookupIn(before, fd, fn), td, tn, LookupIn(before, td, tn));
  }

  method WriteInto(file: Entry, offset: nat, bytes: seq<Byte>) returns (written: Entry)
    requires file.File? && offset <= |file.data| && file.attr.size == file.attr.used == |file.data|
    ensures var data := FileData.Written(file.data, offset, bytes);
            written == file.(data := data, attr := file.attr.(size := |data|, used := |data|))
  {
    written := file;
    var end := offset + |bytes|;
    if end > |written.data| { written := Resize(written, end); }
    written := written.(data := written.data[..offset] + bytes + written.data[end..]);
  }

  class FileSystem {
    const fs: Fs
    var nextid: nat
    /** The writes and resizes of each file, in order, from its first content on. */
    ghost var edits: map<Id, seq<FileData.Edit>>

    ghost function State(): TreeRuns.State
      reads this, fs
    {
      TreeRuns.State(fs.Nodes(), nextid)
    }

    ghost predicate Valid()
      reads this, fs
    {
      fs.Coherent() && Logged(fs.entries, edits) && TreeRuns.Good(State())
    }

    constructor (now: Time)
      ensures Valid() && State() == TreeRuns.INITIAL && fresh(fs) && edits == map[]
      ensures fs.entries == map[ROOT := Dir([47], Attr(ROOT, 507, 507, 0, 0, now, now, now), 0, [])]
    {
      fs := new Fs(now);
      nextid := 2;
      edits := map[];
      new;
      assert forall k :: k in fs.entries ==> k in fs.Nodes() && (fs.Nodes()[k].DirNode? <==> fs.entries[k].Dir?);
    }

    lemma NextIdIsFree()
      requires Valid()
      ensures nextid !in fs.entries
    {
      assert nextid in fs.Nodes() <==> nextid in fs.entries;
    }

    method FetchAddId() returns (id: nat)
      modifies `nextid
      ensures id == old(nextid) && nextid == TreeRuns.Bump(id)
    {
      id := nextid;
      nextid := (nextid + 1) % 0x1_0000_0000_0000_0000;
    }

    method AddDir(dirid: Id, name: Name, now: Time) returns (r: Result<Id, Status>)
      requires Valid()
      modifies this, fs
      ensures fs.Coherent() && TreeRuns.Step(old(State()), TreeRuns.MkdirOp(dirid, name), State())
      ensures Logged(fs.entries, edits) && edits == old(edits)
      ensures var reply := TreeOps.Push(old(fs.Nodes()), dirid, old(nextid), DirNode(name, dirid, {})).reply;
              r == if reply.Ok? then Ok(old(nextid)) else Err(reply.error)
      ensures if r.Ok? then
                Joined(old(fs.entries)[r.value := NewDir(name, r.value, dirid, now)], fs.entries, dirid, r.value)
              else fs.entries == old(fs.entries)
    {
      var newid := FetchAddId();
      var dir := NewDir(name, newid, dirid, now);
      assert NodeOf(dir) == DirNode(name, dirid, {});
      var pushed := fs.Push(dirid, newid, dir);
      if pushed.Ok? { SameDataIsLogged(old(fs.entries)[newid := dir], fs.entries, edits); }
      r := if pushed.Ok? then Ok(newid) else Err(pushed.error);
    }

    method PushFile(dirid: Id, id: Id, file: Entry, ghost first: seq<FileData.Edit>) returns (r: TreeOps.Reply)
      requires fs.Valid() && Logged(fs.entries, edits) && id !in fs.entries
      requires file.File? && file.attr.fileid == id && file.attr.size == file.attr.used == |file.data|
      requires file.data == FileData.ApplyAll(first)
      modifies fs, `edits
      ensures fs.Coherent() && Logged(fs.entries, edits)
      ensures var o := TreeOps.Push(old(fs.Nodes()), dirid, id, NodeOf(file)); fs.Nodes() == o.nodes && r == o.reply
      ensures r.Ok? <==> id in fs.entries
      ensures edits == if r.Ok? then old(edits)[id := first] else old(edits)
      ensures if r.Ok? then Joined(old(fs.entries)[id := file], fs.entries, dirid, id)
              else fs.entries == old(fs.entries)
    {
      r := fs.Push(dirid, id, file);
      assert id in fs.Nodes() <==> id in fs.entries;
      if r.Ok? {
        edits := edits[id := first];
        SameDataIsLogged(old(fs.entries)[id := file], fs.entries, edits);
      }
    }

    /** Creates a file unless the name is taken. With a verifier, a second create with the same
        verifier finds the first one's file instead of failing. */
    method AddFile(dirid: Id, name: Name, attr: SetAttr, data: seq<Byte>, verf: Option<seq<Byte>>, now: Time)
      returns (r: Result<Id, Status>)
      requires Valid()
      modifies this, fs
      ensures fs.Coherent() && TreeRuns.Step(old(State()), TreeRuns.CreateOp(dirid, name, false), State())
      ensures Logged(fs.entries, edits)
      ensures edits == if old(nextid) in fs.entries then old(edits)[old(nextid) := FirstEdits(data, attr)]
                       else old(edits)
      ensures Adds(old(fs.entries), dirid, name, attr, data, verf, now, old(nextid), r, fs.entries)
    {
      NextIdIsFree();
      LookupFinds(fs.entries, dirid, name);
      var newid := FetchAddId();
      var file := WithAttr(NewFile(name, newid, data, if verf.Some? then verf.value else DEFAULT_VERF, now), attr, now);
      var existing := fs.Lookup(dirid, name);
      match existing
      case Ok(c) =>
        if fs.entries[c].File? && verf.Some? && verf.value == fs.entries[c].verf { return Ok(c); }
        return Err(EXIST);
      case Err(e) =>
        if e != NOENT { return Err(e); }
        assert NodeOf(file) == FileNode(name);
        FirstEditsMakeFile(name, newid, data, if verf.Some? then verf.value else DEFAULT_VERF, attr, now);
        var pushed := PushFile(dirid, newid, file, FirstEdits(data, attr));
        r := if pushed.Ok? then Ok(newid) else Err(pushed.error);
    }

    method SetAttributes(id: Id, attr: SetAttr, now: Time) returns (r: Result<Attr, Status>)
      requires Valid()
      modifies fs, `edits
      ensures Valid() && State() == old(State())
      ensures if id in old(fs.entries) then
                var e := WithAttr(old(fs.entries)[id], attr, now);
                fs.entries == old(fs.entries)[id := e] && r == Ok(e.attr)
              else fs.entries == old(fs.entries) && r == Err(NOENT)
      ensures id in old(fs.entries) ==> AttributesAreSet(old(fs.entries)[id], attr, now, fs.entries[id])
      ensures edits == if id in old(fs.entries) && old(fs.entries)[id].File? && attr.size.Some?
                       then old(edits)[id := old(edits)[id] + [FileData.Resize(attr.size.value)]] else old(edits)
    {
      if id !in fs.entries { return Err(NOENT); }
      var entry := WithAttr(fs.entries[id], attr, now);
      AttributesGetSet(fs.entries[id], attr, now);
      if entry.File? && attr.size.Some? {
        edits := edits[id := edits[id] + [FileData.Resize(attr.size.value)]];
      }
      fs.SetEntry(id, entry);
      r := Ok(entry.attr);
    }

    method Write(id: Id, offset: nat, bytes: seq<Byte>) returns (r: Result<Attr, Status>)
      requires Valid()
      modifies fs, `edits
      ensures Valid() && State() == old(State())
      ensures if id !in old(fs.entries) then r == Err(NOENT) && fs.entries == old(fs.entries)
              else if old(fs.entries)[id].Dir? || offset > |old(fs.entries)[id].data|
              then r == Err(INVAL) && fs.entries == old(fs.entries)
              else
                var f := old(fs.entries)[id];
                var data := FileData.Written(f.data, offset, bytes);
                var attr := f.attr.(size := |data|, used := |data|);
                fs.entries == old(fs.entries)[id := f.(data := data, attr := attr)] && r == Ok(attr)
      ensures edits == if r.Ok? then old(edits)[id := old(edits)[id] + [FileData.Write(offset, bytes)]] else old(edits)
    {
      if id !in fs.entries { return Err(NOENT); }
      var file := fs.entries[id];
      if file.Dir? { return Err(INVAL); }
      if offset > |file.data| { return Err(INVAL); }
      file := WriteInto(file, offset, bytes);
      edits := edits[id := edits[id] + [FileData.Write(offset, bytes)]];
      fs.SetEntry(id, file);
      r := Ok(file.attr);
    }

    /** No answer stands for the arithmetic overflow that ends the request. */
    method Read(id: Id, offset: U64, count: U32) returns (r: Result<Option<(seq<Byte>, bool)>, Status>)
      ensures r == if id !in fs.entries then Err(NOENT)
                   else if fs.entries[id].Dir? then Err(ISDIR)
                   else Ok(FileData.Read(fs.entries[id].data, offset, count))
    {
      if id !in fs.entries { return Err(NOENT); }
      if fs.entries[id].Dir? { return Err(ISDIR); }
      r := Ok(FileData.Read(fs.entries[id].data, offset, count));
    }

    /** Resolves the pieces of a path split at '/', of which the empty ones are skipped. */
    method PathToId(pieces: seq<Name>) returns (r: Result<Id, Status>)
      requires Valid() && TreePaths.UniqueNames(fs.Nodes()) && TreePaths.OrdinaryPath(pieces)
      ensures r == TreePaths.Resolve(fs.Nodes(), ROOT, NonEmpty(pieces))
    {
      ghost var t := fs.Nodes();
      var fid := fs.root;
      assert pieces[0..] == pieces;
      for i := 0 to |pieces|
        invariant TreePaths.Resolve(t, ROOT, NonEmpty(pieces)) == TreePaths.Resolve(t, fid, NonEmpty(pieces[i..]))
      {
        assert pieces[i..][1..] == pieces[i + 1..];
        if pieces[i] != [] {
          LookupFinds(fs.entries, fid, pieces[i]);
          TreePaths.FindsIsChild(t, fid, pieces[i], LookupIn(fs.entries, fid, pieces[i]));
          assert NonEmpty(pieces[i..])[1..] == NonEmpty(pieces[i + 1..]);
          var found := fs.Lookup(fid, pieces[i]);
          if found.Err? { return found; }
          fid := found.value;
        }
      }
      r := Ok(fid);
    }

    // ---- Requests ----

    /** The handlers answer with an error before touching the file system when a directory they
        were given is not there. */
    method MkdirRequest(dirid: Id, name: Name, now: Time) returns (r: Result<Id, Status>)
      requires Valid() && nextid < U64_LIMIT - 1
      modifies this, fs
      ensures TreeRuns.Request(old(State()), TreeRuns.MkdirOp(dirid, name), State()) && Valid() && edits == old(edits)
      ensures r == if dirid !in old(fs.entries) then Err(NOENT)
                   else if old(fs.entries)[dirid].File? then Err(NOTDIR) else Ok(old(nextid))
      ensures if r.Ok? then
                var made := Dir(name, Attr(r.value, 507, 507, 0, 0, now, now, now), dirid, []);
                r.value !in old(fs.entries) && Joined(old(fs.entries)[r.value := made], fs.entries, dirid, r.value)
              else fs.entries == old(fs.entries)
    {
      NextIdIsFree();
      if dirid !in fs.entries { return Err(NOENT); }
      r := AddDir(dirid, name, now);
      TreeRuns.RequestKeepsGood(old(State()), TreeRuns.MkdirOp(dirid, name), State());
    }

    method CreateRequest(dirid: Id, name: Name, how: CreateHow, now: Time) returns (r: Result<Id, Status>)
      requires Valid() && nextid < U64_LIMIT - 1
      modifies this, fs
      ensures TreeRuns.Request(old(State()), TreeRuns.CreateOp(dirid, name, how.GUARDED?), State()) && Valid()
      ensures how.GUARDED? && dirid in old(fs.entries) && LookupIn(old(fs.entries), dirid, name).Ok? ==>
                r == Err(EXIST) && State() == old(State()) && fs.entries == old(fs.entries)
      ensures edits == if old(nextid) in fs.entries then
                         old(edits)[old(nextid) := FirstEdits([], if how.EXCLUSIVE? then UNCHANGED else how.attr)]
                       else old(edits)
      ensures Creates(old(fs.entries), dirid, name, how, now, old(nextid), r, fs.entries)
    {
      NextIdIsFree();
      if dirid !in fs.entries { return Err(NOENT); }
      if how.GUARDED? {
        LookupFinds(fs.entries, dirid, name);
        var found := fs.Lookup(dirid, name);
        if found.Ok? { return Err(EXIST); }
      }
      r := CreateIn(dirid, name, how, now);
      TreeRuns.RequestKeepsGood(old(State()), TreeRuns.CreateOp(dirid, name, how.GUARDED?), State());
    }

    method CreateIn(dirid: Id, name: Name, how: CreateHow, now: Time) returns (r: Result<Id, Status>)
      requires Valid() && dirid in fs.entries
      modifies this, fs
      ensures fs.Coherent() && TreeRuns.Step(old(State()), TreeRuns.CreateOp(dirid, name, false), State())
      ensures Logged(fs.entries, edits) && Creates(old(fs.entries), dirid, name, how, now, old(nextid), r, fs.entries)
      ensures edits == if old(nextid) in fs.entries then
                         old(edits)[old(nextid) := FirstEdits([], if how.EXCLUSIVE? then UNCHANGED else how.attr)]
                       else old(edits)
    {
      match how {
        case EXCLUSIVE(verf) => r := AddFile(dirid, name, UNCHANGED, [], Some(verf), now);
        case _ => r := AddFile(dirid, name, how.attr, [], None, now);
      }
      CreateIsSaid(old(fs.entries), dirid, name, how, now, old(nextid), r, fs.entries);
    }

    method RemoveRequest(dirid: Id, name: Name) returns (r: TreeOps.Reply)
      requires Valid() && nextid < U64_LIMIT - 1
      modifies this, fs
      ensures TreeRuns.Request(old(State()), TreeRuns.RemoveOp(dirid, name), State()) && Valid() && edits == old(edits)
      ensures Removes(old(fs.entries), dirid, name, r, fs.entries)
    {
      if dirid !in fs.entries { return Err(NOENT); }
      r := fs.Remove(dirid, name);
      RemoveIsSaid(old(fs.entries), dirid, name, r, fs.entries);
      SameDataIsLogged(old(fs.entries), fs.entries, edits);
      TreeRuns.RequestKeepsGood(old(State()), TreeRuns.RemoveOp(dirid, name), State());
    }

    method RenameRequest(fd: Id, fn: Name, td: Id, tn: Name) returns (r: TreeOps.Reply)
      requires Valid() && nextid < U64_LIMIT - 1
      modifies this, fs
      ensures fs.Coherent() && TreeRuns.Request(old(State()), TreeRuns.RenameOp(fd, fn, td, tn), State())
      ensures Logged(fs.entries, edits) && edits == old(edits)
      ensures Renames(old(fs.entries), fd, fn, td, tn, r, fs.entries)
      ensures Valid() <==> !RelinksDots(old(fs.entries), fd, fn, td, tn)
    {
      if fd !in fs.entries { return Err(NOENT); }
      if td !in fs.entries { return Err(NOENT); }
      r := fs.Rename(fd, fn, td, tn);
      RenameIsSaid(old(fs.entries), fd, fn, td, tn, r, fs.entries);
      SameDataIsLogged(old(fs.entries), fs.entries, edits);
      TreeRuns.RenameKeepsGoodIff(old(State()), fd, fn, LookupIn(old(fs.entries), fd, fn),
                                  td, tn, LookupIn(old(fs.entries), td, tn));
    }
  }

  /** At all times each byte of a file is the one last written there since the file was created. */
  lemma FileHoldsLastWritten(server: FileSystem, id: Id)
    requires server.Valid() && id in server.fs.entries && server.fs.entries[id].File?
    ensures id in server.edits
    ensures var e, log := server.fs.entries[id], server.edits[id];
            && e.attr.size == e.attr.used == |e.data| == FileData.Length(log)
            && forall i :: 0 <= i < |e.data| ==> e.data[i] == FileData.ByteAt(log, i)
  {
    FileData.ContentsAreLastWritten(server.edits[id]);
  }

  function NonEmpty(pieces: seq<Name>): seq<Name> {
    if pieces == [] then []
    else if pieces[0] == [] then NonEmpty(pieces[1..])
    else [pieces[0]] + NonEmpty(pieces[1..])
  }

  /** The pieces that are not empty, in their order. */
  lemma {:induction false} NonEmptyInOrder(pieces: seq<Name>, last: Name)
    ensures NonEmpty([]) == [] && NonEmpty(pieces + [last]) == NonEmpty(pieces) + if last == [] then [] else [last]
  {
    if pieces == [] {
      assert [] + [last] == [last];
    } else {
      NonEmptyInOrder(pieces[1..], last);
      assert (pieces + [last])[1..] == pieces[1..] + [last];
    }
  }

  /** The client's loop that reads a whole file, a megabyte at a time. A file is a byte vector,
      so it holds less than 2^63 bytes. */
  method ReadWholeFile(server: FileSystem, id: Id) returns (r: Result<seq<Byte>, Status>)
    requires id in server.fs.entries && server.fs.entries[id].File? ==>
               |server.fs.entries[id].data| < 0x8000_0000_0000_0000
    ensures r == if id !in server.fs.entries then Err(NOENT)
                 else if server.fs.entries[id].Dir? then Err(ISDIR)
                 else Ok(server.fs.entries[id].data)
  {
    var offset := 0;
    var result := [];
    ghost var data := if id in server.fs.entries && server.fs.entries[id].File? then server.fs.entries[id].data else [];
    while true
      invariant offset <= |data| && result == data[..offset]
      decreases |data| - offset
    {
      var reply := server.Read(id, offset, 0x10_0000);
      if reply.Err? { return Err(reply.error); }
      FileData.ReadReturnsSlice(data, offset, 0x10_0000);
      var (bytes, eof) := reply.value.value;
      result := result + bytes;
      if eof || |bytes| == 0 { break; }
      offset := offset + |bytes|;
    }
    r := Ok(result);
  }
}
