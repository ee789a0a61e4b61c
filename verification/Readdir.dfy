/** READDIR on the in-memory file system, one page a request, and the client's loop over the pages. */
module Readdir {
  import opened Basics
  import opened Xdr
  import opened Tree
  import opened MemFs
  import MemFileSystem
  import NfsTypes
  import Paging

  const NONE_COOKIE_VERF: seq<Byte> := Be64(0)
  const SOME_COOKIE_VERF: seq<Byte> := Be64(0xFFCC_FFCC_FFCC_FFCC)

  datatype Page = Page(attributes: Value, verf: seq<Byte>, entries: seq<Value>, eof: bool)

  // ---- What goes on the wire ----

  function TimeValue(t: Time): Value {
    VStruct([VUint(t.seconds), VUint(t.nseconds)])
  }

  function AttributesValue(e: Entry): Value {
    var a := e.attr;
    VStruct([VArm(if e.Dir? then 1 else 0, VVoid), VUint(if e.Dir? then 511 else 493),
             VUint(1), VUint(a.uid), VUint(a.gid)] +
            ([VHyper(a.size % 0x1_0000_0000_0000_0000), VHyper(a.used % 0x1_0000_0000_0000_0000),
              VStruct([VUint(0), VUint(0)]), VHyper(0), VHyper(a.fileid % 0x1_0000_0000_0000_0000)] +
             [TimeValue(a.atime), TimeValue(a.mtime), TimeValue(a.ctime)]))
  }

  function PostOpAttributes(entries: map<Id, Entry>, d: Id): Value {
    if d in entries then VArm(0, AttributesValue(entries[d])) else VArm(1, VVoid)
  }

  lemma PartsTyped(a: seq<Schema>, v: seq<Value>, b: seq<Schema>, w: seq<Value>)
    requires HasType(Struct(a), VStruct(v)) && HasType(Struct(b), VStruct(w))
    ensures HasType(Struct(a + b), VStruct(v + w))
  {}

  lemma AttributesTyped(entries: map<Id, Entry>, d: Id)
    ensures HasType(NfsTypes.POST_OP_ATTR, PostOpAttributes(entries, d))
  {
    if d in entries {
      var e, a := entries[d], entries[d].attr;
      var words := [VArm(if e.Dir? then 1 else 0, VVoid), VUint(if e.Dir? then 511 else 493),
                    VUint(1), VUint(a.uid), VUint(a.gid)];
      var ids := [VHyper(a.size % 0x1_0000_0000_0000_0000), VHyper(a.used % 0x1_0000_0000_0000_0000),
                  VStruct([VUint(0), VUint(0)]), VHyper(0), VHyper(a.fileid % 0x1_0000_0000_0000_0000)];
      var times := [TimeValue(a.atime), TimeValue(a.mtime), TimeValue(a.ctime)];
      WordsTyped(e.Dir?, a.uid, a.gid);
      IdsTyped(a.size, a.used, a.fileid);
      assert HasType(Struct(NfsTypes.FATTR_TIMES), VStruct(times));
      PartsTyped(NfsTypes.FATTR_IDS, ids, NfsTypes.FATTR_TIMES, times);
      PartsTyped(NfsTypes.FATTR_WORDS, words, NfsTypes.FATTR_IDS + NfsTypes.FATTR_TIMES, ids + times);
    }
  }

  lemma WordsTyped(dir: bool, uid: U32, gid: U32)
    ensures HasType(Struct(NfsTypes.FATTR_WORDS),
                    VStruct([VArm(if dir then 1 else 0, VVoid), VUint(if dir then 511 else 493),
                             VUint(1), VUint(uid), VUint(gid)]))
  {
    var kind := NfsTypes.FTYPE3;
    assert kind.arms[0].body == Void && kind.arms[1].body == Void;
    var v := VArm(if dir then 1 else 0, VVoid);
    assert HasType(Void, VVoid) && HasType(kind.arms[v.index].body, v.body);
    assert HasType(kind, v);
    FourWords(kind, v, if dir then 511 else 493, 1, uid, gid);
  }

  lemma FourWords(s: Schema, v: Value, a: U32, b: U32, c: U32, d: U32)
    requires HasType(s, v)
    ensures HasType(Struct([s, Uint, Uint, Uint, Uint]), VStruct([v, VUint(a), VUint(b), VUint(c), VUint(d)]))
  {}

  lemma IdsTyped(size: nat, used: nat, fileid: nat)
    ensures HasType(Struct(NfsTypes.FATTR_IDS),
                    VStruct([VHyper(size % 0x1_0000_0000_0000_0000), VHyper(used % 0x1_0000_0000_0000_0000),
                             VStruct([VUint(0), VUint(0)]), VHyper(0), VHyper(fileid % 0x1_0000_0000_0000_0000)]))
  {}

  /** The cookie verifier of a directory is its modification time. */
  function VerfOf(entries: map<Id, Entry>, d: Id): (v: seq<Byte>)
    ensures |v| == 8
  {
    if d in entries then Be64(entries[d].attr.mtime.seconds * 0x1_0000_0000 + entries[d].attr.mtime.nseconds)
    else SOME_COOKIE_VERF
  }

  lemma VerfIsTime(entries: map<Id, Entry>, d: Id)
    requires d in entries
    ensures VerfOf(entries, d) == Be32(entries[d].attr.mtime.seconds) + Be32(entries[d].attr.mtime.nseconds)
  {
    var time := entries[d].attr.mtime;
    var h := time.seconds * 0x1_0000_0000 + time.nseconds;
    assert h / 0x1_0000_0000 == time.seconds && h % 0x1_0000_0000 == time.nseconds;
  }

  /** It is the verifier of a first request exactly when the time is zero. */
  lemma VerfIsNoneIff(entries: map<Id, Entry>, d: Id)
    requires d in entries
    ensures VerfOf(entries, d) == NONE_COOKIE_VERF <==> entries[d].attr.mtime == Time(0, 0)
  {
    var time := entries[d].attr.mtime;
    Be64Injective(time.seconds * 0x1_0000_0000 + time.nseconds, 0);
  }

  /** A directory entry; the entry's id is also the cookie to continue after it. */
  function EntryValue(id: Id, name: Name): Value {
    var h := id % 0x1_0000_0000_0000_0000;
    VStruct([VHyper(h), VStruct([VBytes(name)]), VHyper(h)])
  }

  // ---- The iterator ----

  /** What `f` makes of the entries of `ids` that are still there. */
  function LiveBy<R>(f: (Id, Entry) -> R, entries: map<Id, Entry>, ids: seq<Id>): seq<R> {
    if ids == [] then []
    else if ids[0] in entries then [f(ids[0], entries[ids[0]])] + LiveBy(f, entries, ids[1..])
    else LiveBy(f, entries, ids[1..])
  }

  function EntryOf(id: Id, e: Entry): Value {
    EntryValue(id, e.name)
  }

  function Live(entries: map<Id, Entry>, ids: seq<Id>): seq<Value> {
    LiveBy(EntryOf, entries, ids)
  }

  lemma {:induction false} LiveTyped(entries: map<Id, Entry>, ids: seq<Id>)
    ensures NfsTypes.AllOfType(NfsTypes.ENTRY3, Live(entries, ids))
  {
    if ids != [] {
      LiveTyped(entries, ids[1..]);
    }
  }

  lemma {:induction false} LiveCount<R>(f: (Id, Entry) -> R, entries: map<Id, Entry>, ids: seq<Id>)
    requires forall k :: k in ids ==> k in entries
    ensures |LiveBy(f, entries, ids)| == |ids|
  {
    if ids != [] { LiveCount(f, entries, ids[1..]); }
  }

  lemma {:induction false} LiveAt<R>(f: (Id, Entry) -> R, entries: map<Id, Entry>, ids: seq<Id>, i: nat)
    requires (forall k :: k in ids ==> k in entries) && i < |ids| == |LiveBy(f, entries, ids)|
    ensures LiveBy(f, entries, ids)[i] == f(ids[i], entries[ids[i]])
  {
    if i > 0 { LiveAt(f, entries, ids[1..], i - 1); }
  }

  class MemFsIterator {
    const fs: Fs
    const ids: seq<Id>
    var index: nat

    predicate Valid()
      reads this
    {
      index <= |ids|
    }

    /** What is still to come, as `f` shows it. */
    ghost function Remaining<R>(f: (Id, Entry) -> R): seq<R>
      requires Valid()
      reads this, fs
    {
      LiveBy(f, fs.entries, ids[index..])
    }

    constructor (fs: Fs, ids: seq<Id>)
      ensures Valid() && this.fs == fs && this.ids == ids && index == 0
    {
      this.fs := fs;
      this.ids := ids;
      index := 0;
    }

    method VisitNextEntry<R>(f: (Id, Entry) -> R) returns (r: Option<R>)
      requires Valid()
      modifies `index
      ensures Valid()
      ensures if old(Remaining(f)) == [] then r == None && Remaining(f) == []
              else r == Some(old(Remaining(f))[0]) && Remaining(f) == old(Remaining(f))[1..]
    {
      while true
        invariant Valid() && Remaining(f) == old(Remaining(f))
        decreases |ids| - index
      {
        if index >= |ids| { return None; }
        var id := ids[index];
        assert ids[index..][1..] == ids[index + 1..];
        index := index + 1;
        if id !in fs.entries { continue; }
        return Some(f(id, fs.entries[id]));
      }
    }

    method Next() returns (r: Option<Value>)
      requires Valid()
      modifies `index
      ensures Valid()
      ensures if old(Remaining(EntryOf)) == [] then r == None && Remaining(EntryOf) == []
              else r == Some(old(Remaining(EntryOf))[0]) && Remaining(EntryOf) == old(Remaining(EntryOf))[1..]
    {
      r := VisitNextEntry(EntryOf);
    }
  }

  /** The content after the entry with this id, in iteration order; all of it for cookie 0. */
  function StartAfter(content: seq<Id>, cookie: U64): Option<seq<Id>> {
    if cookie == 0 then Some(content) else Skip(content, cookie)
  }

  function Skip(content: seq<Id>, cookie: U64): Option<seq<Id>> {
    if content == [] then None
    else if content[0] == cookie then Some(content[1..])
    else Skip(content[1..], cookie)
  }

  lemma {:induction false} SkipTo(content: seq<Id>, i: nat)
    requires NoDuplicates(content) && i < |content| && content[i] < 0x1_0000_0000_0000_0000
    ensures Skip(content, content[i]) == Some(content[i + 1..])
  {
    if i > 0 {
      SkipTo(content[1..], i - 1);
      assert content[1..][i..] == content[i + 1..];
    }
  }

  /** What an iterator goes over that starts after the entry with this cookie. */
  function Start(entries: map<Id, Entry>, d: Id, cookie: U64): Result<seq<Id>, Status> {
    if d !in entries then Err(NOENT)
    else if entries[d].File? then Err(NOTDIR)
    else match StartAfter(entries[d].content, cookie)
      case None => Err(BAD_COOKIE)
      case Some(ids) => Ok(ids)
  }

  method MakeIter(server: MemFileSystem.FileSystem, dirid: Id, cookie: U64) returns (r: Result<MemFsIterator, Status>)
    ensures var start := Start(server.fs.entries, dirid, cookie);
            if start.Err? then r == Err(start.error)
            else r.Ok? && fresh(r.value) && r.value.Valid() && r.value.fs == server.fs
                 && r.value.ids[r.value.index..] == start.value
  {
    var entries := server.fs.entries;
    if dirid !in entries { return Err(NOENT); }
    if entries[dirid].File? { return Err(NOTDIR); }
    var ids := StartAfter(entries[dirid].content, cookie);
    if ids.None? { return Err(BAD_COOKIE); }
    var iter := new MemFsIterator(server.fs, ids.value);
    assert ids.value[0..] == ids.value;
    r := Ok(iter);
  }

  // ---- One request ----

  /** Bytes of a reply around the list: the xid, and the reply with an empty list. */
  function Overhead(attributes: Value): nat
    requires HasType(NfsTypes.POST_OP_ATTR, attributes)
  {
    4 + PackedSize(NfsTypes.POST_OP_ATTR, attributes) + 8 + 4 + 4
  }

  /** A page is the longest prefix that fits; no page when not even one of the entries fits. */
  ghost predicate IsPage(attributes: Value, verf: seq<Byte>, entries: seq<Value>, max: nat, r: Result<Page, Status>)
    requires NfsTypes.AllOfType(NfsTypes.ENTRY3, entries)
  {
    match r
    case Ok(page) =>
      && Paging.LongestFitting(NfsTypes.ENTRY3, entries, max, |page.entries|)
      && page == Page(attributes, verf, entries[..|page.entries|], |page.entries| == |entries|)
      && (page.entries != [] || entries == [])
    case Err(status) => status == TOOSMALL && entries != [] && Paging.LongestFitting(NfsTypes.ENTRY3, entries, max, 0)
  }

  /** The answer to a READDIR request. */
  ghost predicate Answers(entries: map<Id, Entry>, d: Id, cookie: U64, verf: seq<Byte>, count: U32, attributes: Value,
                          r: Result<Page, Status>)
    requires HasType(NfsTypes.POST_OP_ATTR, attributes)
  {
    if (if verf == NONE_COOKIE_VERF then cookie != 0 else verf != VerfOf(entries, d)) then r == Err(BAD_COOKIE)
    else if Overhead(attributes) > count then r == Err(TOOSMALL)
    else match Start(entries, d, cookie)
      case Err(e) => r == Err(e)
      case Ok(ids) =>
        LiveTyped(entries, ids);
        IsPage(attributes, VerfOf(entries, d), Live(entries, ids), count - Overhead(attributes), r)
  }

  method FillPage(iter: MemFsIterator, max: nat) returns (page: seq<Value>, eof: bool)
    requires iter.Valid()
    modifies iter
    ensures NfsTypes.AllOfType(NfsTypes.ENTRY3, old(iter.Remaining(EntryOf)))
    ensures Paging.LongestFitting(NfsTypes.ENTRY3, old(iter.Remaining(EntryOf)), max, |page|)
    ensures page == old(iter.Remaining(EntryOf))[..|page|] && (eof <==> |page| == |old(iter.Remaining(EntryOf))|)
  {
    ghost var all := iter.Remaining(EntryOf);
    LiveTyped(iter.fs.entries, iter.ids[iter.index..]);
    var list := new Paging.BoundedList(NfsTypes.ENTRY3, max);
    ghost var i := 0;
    while true
      invariant iter.Valid() && fresh(list) && list.Valid() && list.item == NfsTypes.ENTRY3 && list.maxSize == max
      invariant i <= |all| && list.items == all[..i] && iter.Remaining(EntryOf) == all[i..]
      invariant i > 0 ==> ItemsSize(NfsTypes.ENTRY3, all[..i]) <= max
      decreases |all| - i
    {
      var next := iter.Next();
      if next.None? {
        eof := true;
        break;
      }
      assert all[..i] + [all[i]] == all[..i + 1] && all[i..][1..] == all[i + 1..];
      var pushed := list.TryPush(next.value);
      if !pushed {
        eof := false;
        break;
      }
      i := i + 1;
    }
    page := list.items;
  }

  /** The packed reply is well-formed and, with the xid, no longer than the client allows. */
  predicate FitsReply(page: Page, count: U32) {
    var v := NfsTypes.ListingValue(page.attributes, page.verf, page.entries, page.eof);
    HasType(NfsTypes.READDIR3RESOK, v) && 4 + PackedSize(NfsTypes.READDIR3RESOK, v) <= count
  }

  lemma ReplyFits(page: Page, count: U32)
    requires HasType(NfsTypes.POST_OP_ATTR, page.attributes) && |page.verf| == 8
    requires NfsTypes.AllOfType(NfsTypes.ENTRY3, page.entries) && Overhead(page.attributes) <= count
    requires page.entries != [] ==> ItemsSize(NfsTypes.ENTRY3, page.entries) <= count - Overhead(page.attributes)
    ensures FitsReply(page, count)
  {
    NfsTypes.ListingTyped(NfsTypes.ENTRY3, page.attributes, page.verf, page.entries, page.eof);
    NfsTypes.ListingSize(NfsTypes.ENTRY3, page.attributes, page.verf, page.entries, page.eof);
  }

  lemma EmptyReplySize(attributes: Value, verf: seq<Byte>)
    requires HasType(NfsTypes.POST_OP_ATTR, attributes) && |verf| == 8
    ensures var v := NfsTypes.ListingValue(attributes, verf, [], false);
            && HasType(NfsTypes.READDIR3RESOK, v)
            && 4 + PackedSize(NfsTypes.READDIR3RESOK, v) == Overhead(attributes)
  {
    NfsTypes.ListingTyped(NfsTypes.ENTRY3, attributes, verf, [], false);
    NfsTypes.ListingSize(NfsTypes.ENTRY3, attributes, verf, [], false);
  }

  method ReadDirectory(server: MemFileSystem.FileSystem, dirid: Id, cookie: U64, verf: seq<Byte>, count: U32)
    returns (r: Result<Page, Status>)
    ensures HasType(NfsTypes.POST_OP_ATTR, PostOpAttributes(server.fs.entries, dirid))
    ensures Answers(server.fs.entries, dirid, cookie, verf, count, PostOpAttributes(server.fs.entries, dirid), r)
    ensures r.Ok? ==> FitsReply(r.value, count)
    ensures r.Ok? && Listed(server.fs.entries, dirid) ==>
              PageShown(server.fs.entries, server.fs.entries[dirid].content, cookie, r.value)
  {
    r := ReadPage(server, dirid, cookie, verf, count);
    if r.Ok? && Listed(server.fs.entries, dirid) {
      PageIsShown(server.fs.entries, dirid, cookie, verf, count, PostOpAttributes(server.fs.entries, dirid), r.value);
    }
  }

  method ReadPage(server: MemFileSystem.FileSystem, dirid: Id, cookie: U64, verf: seq<Byte>, count: U32)
    returns (r: Result<Page, Status>)
    ensures HasType(NfsTypes.POST_OP_ATTR, PostOpAttributes(server.fs.entries, dirid))
    ensures Answers(server.fs.entries, dirid, cookie, verf, count, PostOpAttributes(server.fs.entries, dirid), r)
    ensures r.Ok? ==> FitsReply(r.value, count)
  {
    var entries := server.fs.entries;
    AttributesTyped(entries, dirid);
    var attributes := PostOpAttributes(entries, dirid);
    var current := VerfOf(entries, dirid);
    if verf == NONE_COOKIE_VERF {
      if cookie != 0 { return Err(BAD_COOKIE); }
    } else if verf != current {
      return Err(BAD_COOKIE);
    }

    EmptyReplySize(attributes, current);
    var emptyLen := 4 + PackedSize(NfsTypes.READDIR3RESOK, NfsTypes.ListingValue(attributes, current, [], false));
    if emptyLen > count { return Err(TOOSMALL); }

    r := ListFrom(server, dirid, cookie, attributes, current, count - emptyLen);
    if r.Ok? { ReplyFits(r.value, count); }
  }

  /** The entries after the cookie's, as many as there is room for. */
  method ListFrom(server: MemFileSystem.FileSystem, dirid: Id, cookie: U64, attributes: Value, verf: seq<Byte>,
                  room: nat)
    returns (r: Result<Page, Status>)
    ensures match Start(server.fs.entries, dirid, cookie)
            case Err(e) => r == Err(e)
            case Ok(ids) =>
              && NfsTypes.AllOfType(NfsTypes.ENTRY3, Live(server.fs.entries, ids))
              && IsPage(attributes, verf, Live(server.fs.entries, ids), room, r)
    ensures r.Ok? ==>
      && r.value.attributes == attributes && r.value.verf == verf
      && NfsTypes.AllOfType(NfsTypes.ENTRY3, r.value.entries)
      && (r.value.entries != [] ==> ItemsSize(NfsTypes.ENTRY3, r.value.entries) <= room)
  {
    var iter := MakeIter(server, dirid, cookie);
    if iter.Err? { return Err(iter.error); }
    var page, eof := FillPage(iter.value, room);
    if page == [] && !eof { return Err(TOOSMALL); }
    r := Ok(Page(attributes, verf, page, eof));
  }

  // ---- What a client sees ----

  /** The entry with this id: file id, name and cookie, in this order. */
  predicate Shown(entries: map<Id, Entry>, id: Id, v: Value) {
    && id in entries && id < 0x1_0000_0000_0000_0000
    && v == VStruct([VHyper(id), VStruct([VBytes(entries[id].name)]), VHyper(id)])
  }

  predicate AllShown(entries: map<Id, Entry>, ids: seq<Id>, vs: seq<Value>) {
    |vs| == |ids| && forall i :: 0 <= i < |ids| ==> Shown(entries, ids[i], vs[i])
  }

  /** The entries from place `i` on, and the end-of-file flag. */
  predicate ShownFrom(entries: map<Id, Entry>, content: seq<Id>, i: nat, page: Page) {
    && i + |page.entries| <= |content| && AllShown(entries, content[i..i + |page.entries|], page.entries)
    && (page.eof <==> i + |page.entries| == |content|)
  }

  /** A listing from the start, or from the place after the entry whose id is the cookie. */
  predicate PageShown(entries: map<Id, Entry>, content: seq<Id>, cookie: U64, page: Page) {
    if cookie == 0 then ShownFrom(entries, content, 0, page)
    else exists i :: 0 <= i < |content| && content[i] == cookie && ShownFrom(entries, content, i + 1, page)
  }

  lemma LiveIsShown(entries: map<Id, Entry>, ids: seq<Id>)
    requires forall k :: k in ids ==> k in entries && k < 0x1_0000_0000_0000_0000
    ensures AllShown(entries, ids, Live(entries, ids))
  {
    LiveCount(EntryOf, entries, ids);
    forall i | 0 <= i < |ids| ensures Shown(entries, ids[i], Live(entries, ids)[i]) {
      LiveAt(EntryOf, entries, ids, i);
    }
  }

  /** The attributes in their order on the wire; a number that 64 bits cannot hold does not occur. */
  predicate AttributesShown(e: Entry, v: Value) {
    && v.VStruct? && |v.parts| == 13 && v.parts[0] == VArm(if e.Dir? then 1 else 0, VVoid)
    && v.parts[1] == VUint(if e.Dir? then 511 else 493) && v.parts[2] == VUint(1)
    && v.parts[3] == VUint(e.attr.uid) && v.parts[4] == VUint(e.attr.gid)
    && (e.attr.size < 0x1_0000_0000_0000_0000 ==> v.parts[5] == VHyper(e.attr.size))
    && (e.attr.used < 0x1_0000_0000_0000_0000 ==> v.parts[6] == VHyper(e.attr.used))
    && v.parts[7] == VStruct([VUint(0), VUint(0)]) && v.parts[8] == VHyper(0)
    && (e.attr.fileid < 0x1_0000_0000_0000_0000 ==> v.parts[9] == VHyper(e.attr.fileid))
    && v.parts[10] == VStruct([VUint(e.attr.atime.seconds), VUint(e.attr.atime.nseconds)])
    && v.parts[11] == VStruct([VUint(e.attr.mtime.seconds), VUint(e.attr.mtime.nseconds)])
    && v.parts[12] == VStruct([VUint(e.attr.ctime.seconds), VUint(e.attr.ctime.nseconds)])
  }

  lemma AttributesAreShown(e: Entry)
    ensures AttributesShown(e, AttributesValue(e))
  {}

  /** Of a directory whose entries are all there, a page is that. */
  lemma PageIsShown(entries: map<Id, Entry>, d: Id, cookie: U64, verf: seq<Byte>, count: U32, attributes: Value,
                    page: Page)
    requires Listed(entries, d) && HasType(NfsTypes.POST_OP_ATTR, attributes)
    requires Answers(entries, d, cookie, verf, count, attributes, Ok(page))
    ensures PageShown(entries, entries[d].content, cookie, page)
  {
    var content := entries[d].content;
    var i := StartedAt(content, cookie);
    LiveTyped(entries, content[i..]);
    LiveIsShown(entries, content[i..]);
    assert content[i..i + |page.entries|] == content[i..][..|page.entries|];
  }

  lemma {:induction false} StartedAt(content: seq<Id>, cookie: U64) returns (i: nat)
    requires StartAfter(content, cookie).Some?
    ensures i <= |content| && StartAfter(content, cookie) == Some(content[i..])
    ensures if cookie == 0 then i == 0 else i > 0 && content[i - 1] == cookie
  {
    if cookie == 0 {
      assert content[0..] == content;
      i := 0;
    } else {
      i := SkippedTo(content, cookie);
    }
  }

  lemma {:induction false} SkippedTo(content: seq<Id>, cookie: U64) returns (i: nat)
    requires Skip(content, cookie).Some?
    ensures 0 < i <= |content| && content[i - 1] == cookie && Skip(content, cookie) == Some(content[i..])
  {
    if content[0] == cookie {
      i := 1;
    } else {
      i := SkippedTo(content[1..], cookie);
      assert content[1..][i..] == content[i + 1..] && content[1..][i - 1] == content[i];
      i := i + 1;
    }
  }

  /** Without a verifier a request starts at the beginning; with one, the directory's time is still that. */
  predicate Usable(entries: map<Id, Entry>, d: Id, cookie: U64, verf: seq<Byte>) {
    if verf == [0, 0, 0, 0, 0, 0, 0, 0] then cookie == 0
    else if d in entries then verf == Be32(entries[d].attr.mtime.seconds) + Be32(entries[d].attr.mtime.nseconds)
    else verf == [0xFF, 0xCC, 0xFF, 0xCC, 0xFF, 0xCC, 0xFF, 0xCC]
  }

  lemma UsableIsAccepted(entries: map<Id, Entry>, d: Id, cookie: U64, verf: seq<Byte>)
    ensures Usable(entries, d, cookie, verf)
       <==> if verf == NONE_COOKIE_VERF then cookie == 0 else verf == VerfOf(entries, d)
  {
    if d in entries { VerfIsTime(entries, d); }
    assert NONE_COOKIE_VERF == [0, 0, 0, 0, 0, 0, 0, 0];
    assert SOME_COOKIE_VERF == [0xFF, 0xCC, 0xFF, 0xCC, 0xFF, 0xCC, 0xFF, 0xCC];
  }

  /** The refusals before there is an iterator, in their order. */
  lemma RefusedRequests(entries: map<Id, Entry>, d: Id, cookie: U64, verf: seq<Byte>, count: U32,
                        r: Result<Page, Status>)
    requires HasType(NfsTypes.POST_OP_ATTR, PostOpAttributes(entries, d))
    requires Answers(entries, d, cookie, verf, count, PostOpAttributes(entries, d), r)
    ensures if !Usable(entries, d, cookie, verf) then r == Err(BAD_COOKIE)
            else if count < (if d in entries then 108 else 24) then r == Err(TOOSMALL)
            else if d !in entries then r == Err(NOENT)
            else if entries[d].File? then r == Err(NOTDIR)
            else cookie != 0 && cookie !in entries[d].content ==> r == Err(BAD_COOKIE)
  {
    UsableIsAccepted(entries, d, cookie, verf);
    NfsTypes.OptionalAttributesSize(PostOpAttributes(entries, d));
    if d in entries && entries[d].Dir? && StartAfter(entries[d].content, cookie).Some? {
      var i := StartedAt(entries[d].content, cookie);
    }
  }

  lemma ShownSize(entries: map<Id, Entry>, id: Id, v: Value)
    requires Shown(entries, id, v)
    ensures HasType(NfsTypes.ENTRY3, v)
    ensures PackedSize(NfsTypes.ENTRY3, v) == 20 + (|entries[id].name| + 3) / 4 * 4
  {
    var name := VStruct([VBytes(entries[id].name)]);
    assert HasType(NfsTypes.FILENAME3, name);
    NfsTypes.OneField(OpaqueVar, VBytes(entries[id].name));
    NfsTypes.ThreeFields(Hyper, VHyper(id), NfsTypes.FILENAME3, name, Hyper, VHyper(id));
  }

  /** A first request to a directory is refused exactly when the first entry does not fit: 28 bytes and its name,
      padded to words, besides the 108 of the reply. */
  lemma TooSmallIff(entries: map<Id, Entry>, d: Id, count: U32, r: Result<Page, Status>)
    requires Listed(entries, d) && HasType(NfsTypes.POST_OP_ATTR, PostOpAttributes(entries, d))
    requires Answers(entries, d, 0, NONE_COOKIE_VERF, count, PostOpAttributes(entries, d), r) && count >= 108
    ensures var content := entries[d].content;
            && (r.Err? ==> r == Err(TOOSMALL))
            && (r.Err? <==> content != [] && count < 136 + (|entries[content[0]].name| + 3) / 4 * 4)
  {
    var content := entries[d].content;
    NfsTypes.OptionalAttributesSize(PostOpAttributes(entries, d));
    LiveTyped(entries, content);
    LiveIsShown(entries, content);
    var listing := Live(entries, content);
    if content != [] {
      ShownSize(entries, content[0], listing[0]);
      assert listing[..1] == [] + [listing[0]];
      Paging.ItemsSizeAppend(NfsTypes.ENTRY3, [], listing[0]);
      if r.Ok? { Paging.PrefixIsSmaller(NfsTypes.ENTRY3, listing, 1, |r.value.entries|); }
    }
  }

  // ---- The client's loop over the pages ----

  /** A live directory whose entries can be cookies: all there, no one twice, ids from 1 to 2^64 - 1. */
  ghost predicate Listed(entries: map<Id, Entry>, d: Id) {
    && d in entries && entries[d].Dir? && NoDuplicates(entries[d].content)
    && forall k :: k in entries[d].content ==> k in entries && 1 <= k < 0x1_0000_0000_0000_0000
  }

  /** In a reachable state every directory is. */
  lemma DirectoriesAreListed(server: MemFileSystem.FileSystem, d: Id)
    requires server.Valid() && d in server.fs.entries && server.fs.entries[d].Dir?
    ensures Listed(server.fs.entries, d)
  {
    var t := server.fs.Nodes();
    forall k | k in server.fs.entries[d].content ensures k in t && ROOT <= k < 0x1_0000_0000_0000_0000 {
      assert Owns(t, d, k);
    }
  }

  /** The cookie of a client that has the first `i` entries. */
  function CookieAfter(content: seq<Id>, i: nat): U64
    requires i <= |content|
  {
    if i == 0 then 0 else content[i - 1] % 0x1_0000_0000_0000_0000
  }

  /** It makes the server go on with the entry after those. */
  lemma Resumes(entries: map<Id, Entry>, d: Id, i: nat)
    requires Listed(entries, d) && i <= |entries[d].content|
    ensures StartAfter(entries[d].content, CookieAfter(entries[d].content, i)) == Some(entries[d].content[i..])
    ensures |Live(entries, entries[d].content)| == |entries[d].content|
    ensures Live(entries, entries[d].content[i..]) == Live(entries, entries[d].content)[i..]
  {
    var content := entries[d].content;
    if i > 0 {
      assert content[i - 1] in content;
      SkipTo(content, i - 1);
    }
    LiveCount(EntryOf, entries, content);
    LiveDrop(EntryOf, entries, content, i);
  }

  lemma {:induction false} LiveDrop<R>(f: (Id, Entry) -> R, entries: map<Id, Entry>, ids: seq<Id>, i: nat)
    requires (forall k :: k in ids ==> k in entries) && i <= |ids| == |LiveBy(f, entries, ids)|
    ensures LiveBy(f, entries, ids[i..]) == LiveBy(f, entries, ids)[i..]
  {
    if i > 0 {
      LiveDrop(f, entries, ids[1..], i - 1);
      assert ids[1..][i - 1..] == ids[i..];
    }
  }

  /** What the server says to a client that has the first `i` entries. */
  ghost predicate Says(entries: map<Id, Entry>, d: Id, i: nat, count: U32, attributes: Value, r: Result<Page, Status>)
    requires HasType(NfsTypes.POST_OP_ATTR, attributes) && d in entries && entries[d].Dir?
    requires i <= |Live(entries, entries[d].content)|
  {
    LiveTyped(entries, entries[d].content);
    if i > 0 && entries[d].attr.mtime == Time(0, 0) then r == Err(BAD_COOKIE)
    else if Overhead(attributes) > count then r == Err(TOOSMALL)
    else
      var rest := Live(entries, entries[d].content)[i..];
      IsPage(attributes, VerfOf(entries, d), rest, count - Overhead(attributes), r)
  }

  lemma AnswerAt(entries: map<Id, Entry>, d: Id, i: nat, verf: seq<Byte>, count: U32, attributes: Value,
                 r: Result<Page, Status>)
    requires Listed(entries, d) && i <= |entries[d].content| && HasType(NfsTypes.POST_OP_ATTR, attributes)
    requires verf == if i == 0 then NONE_COOKIE_VERF else VerfOf(entries, d)
    requires Answers(entries, d, CookieAfter(entries[d].content, i), verf, count, attributes, r)
    ensures i <= |Live(entries, entries[d].content)| && Says(entries, d, i, count, attributes, r)
  {
    LiveTyped(entries, entries[d].content);
    LiveCount(EntryOf, entries, entries[d].content);
    Resumes(entries, d, i);
    VerfIsNoneIff(entries, d);
  }

  /** Every entry fits in a page alone; without a usable verifier, all entries fit in the first page. */
  ghost predicate Listable(entries: map<Id, Entry>, d: Id, count: U32, attributes: Value)
    requires HasType(NfsTypes.POST_OP_ATTR, attributes)
  {
    && d in entries && entries[d].Dir? && Overhead(attributes) <= count
    && var listing, room := Live(entries, entries[d].content), count - Overhead(attributes);
       LiveTyped(entries, entries[d].content);
       && (forall j :: 0 <= j < |listing| ==> 8 + PackedSize(NfsTypes.ENTRY3, listing[j]) <= room)
       && (entries[d].attr.mtime == Time(0, 0) && listing != [] ==> ItemsSize(NfsTypes.ENTRY3, listing) <= room)
  }

  /** A packed entry of a list takes no more room than a packed prefix that has it. */
  lemma EntryFits(listing: seq<Value>, n: nat, j: nat)
    requires NfsTypes.AllOfType(NfsTypes.ENTRY3, listing) && j < n <= |listing|
    ensures 8 + PackedSize(NfsTypes.ENTRY3, listing[j]) <= ItemsSize(NfsTypes.ENTRY3, listing[..n])
  {
    assert listing[..j + 1] == listing[..j] + [listing[j]];
    Paging.ItemsSizeAppend(NfsTypes.ENTRY3, listing[..j], listing[j]);
    Paging.PrefixIsSmaller(NfsTypes.ENTRY3, listing, 0, j);
    Paging.PrefixIsSmaller(NfsTypes.ENTRY3, listing, j + 1, n);
  }

  /** A page past the first `i` entries holds only entries that fit, or the next entry does not fit. */
  lemma PageFits(listing: seq<Value>, i: nat, room: nat, verf: seq<Byte>, attributes: Value, r: Result<Page, Status>)
    requires NfsTypes.AllOfType(NfsTypes.ENTRY3, listing) && i <= |listing|
    requires IsPage(attributes, verf, listing[i..], room, r)
    ensures r.Err? ==> i < |listing| && 8 + PackedSize(NfsTypes.ENTRY3, listing[i]) > room
    ensures r.Ok? ==> forall j :: i <= j < i + |r.value.entries| ==> 8 + PackedSize(NfsTypes.ENTRY3, listing[j]) <= room
  {
    var rest := listing[i..];
    if r.Err? {
      assert rest[..1] == [] + [listing[i]];
      Paging.ItemsSizeAppend(NfsTypes.ENTRY3, [], listing[i]);
    } else {
      forall j | i <= j < i + |r.value.entries| ensures 8 + PackedSize(NfsTypes.ENTRY3, listing[j]) <= room {
        EntryFits(rest, |r.value.entries|, j - i);
      }
    }
  }

  /** A first page that is not the last cannot hold everything. */
  lemma FirstPageIsShort(listing: seq<Value>, room: nat, n: nat)
    requires NfsTypes.AllOfType(NfsTypes.ENTRY3, listing) && n < |listing|
    requires Paging.LongestFitting(NfsTypes.ENTRY3, listing, room, n)
    ensures ItemsSize(NfsTypes.ENTRY3, listing) > room
  {
    Paging.PrefixIsSmaller(NfsTypes.ENTRY3, listing, n + 1, |listing|);
    assert listing[..|listing|] == listing;
  }

  /** The first `i` entries fit in pages, and there are more than one page holds. */
  ghost predicate Unfinished(listing: seq<Value>, i: nat, room: int)
    requires NfsTypes.AllOfType(NfsTypes.ENTRY3, listing)
  {
    && i < |listing| && room < ItemsSize(NfsTypes.ENTRY3, listing)
    && forall j :: 0 <= j < i ==> 8 + PackedSize(NfsTypes.ENTRY3, listing[j]) <= room
  }

  /** The client has the first `i` entries of a directory and may ask for more. */
  ghost predicate Reading(entries: map<Id, Entry>, d: Id, i: nat, count: U32, attributes: Value)
    requires HasType(NfsTypes.POST_OP_ATTR, attributes)
  {
    && Listed(entries, d) && i <= |Live(entries, entries[d].content)| == |entries[d].content|
    && NfsTypes.AllOfType(NfsTypes.ENTRY3, Live(entries, entries[d].content))
    && (i > 0 ==> Unfinished(Live(entries, entries[d].content), i, count - Overhead(attributes)))
  }

  lemma FirstPage(listing: seq<Value>, room: nat, verf: seq<Byte>, attributes: Value, page: Page)
    requires NfsTypes.AllOfType(NfsTypes.ENTRY3, listing) && IsPage(attributes, verf, listing[0..], room, Ok(page))
    ensures if |page.entries| < |listing| then ItemsSize(NfsTypes.ENTRY3, listing) > room
            else listing == [] || ItemsSize(NfsTypes.ENTRY3, listing) <= room
  {
    assert listing[0..] == listing && listing[..|listing|] == listing;
    if |page.entries| < |listing| { FirstPageIsShort(listing, room, |page.entries|); }
  }

  /** What an answer tells a client that has the first `i` entries: an error, that the directory is not
      listable; the last page, that it is; any other page makes progress. */
  ghost predicate Tells(entries: map<Id, Entry>, d: Id, i: nat, count: U32, attributes: Value, r: Result<Page, Status>)
    requires HasType(NfsTypes.POST_OP_ATTR, attributes) && d in entries && entries[d].Dir?
  {
    var listing := Live(entries, entries[d].content);
    match r
    case Err(_) => !Listable(entries, d, count, attributes)
    case Ok(page) =>
      && i + |page.entries| <= |listing| && page.verf == VerfOf(entries, d)
      && page.entries == listing[i..i + |page.entries|]
      && if page.eof then i + |page.entries| == |listing| && Listable(entries, d, count, attributes)
         else page.entries != [] && Reading(entries, d, i + |page.entries|, count, attributes)
  }

  lemma OnePage(entries: map<Id, Entry>, d: Id, i: nat, verf: seq<Byte>, count: U32, attributes: Value,
                r: Result<Page, Status>)
    requires HasType(NfsTypes.POST_OP_ATTR, attributes) && Reading(entries, d, i, count, attributes)
    requires verf == if i == 0 then NONE_COOKIE_VERF else VerfOf(entries, d)
    requires Answers(entries, d, CookieAfter(entries[d].content, i), verf, count, attributes, r)
    ensures Tells(entries, d, i, count, attributes, r)
  {
    AnswerAt(entries, d, i, verf, count, attributes, r);
    match r
    case Err(e) => ErrorTells(entries, d, i, count, attributes, e);
    case Ok(page) => PageTells(entries, d, i, count, attributes, page);
  }

  lemma ErrorTells(entries: map<Id, Entry>, d: Id, i: nat, count: U32, attributes: Value, e: Status)
    requires HasType(NfsTypes.POST_OP_ATTR, attributes) && Reading(entries, d, i, count, attributes)
    requires Says(entries, d, i, count, attributes, Err(e))
    ensures !Listable(entries, d, count, attributes)
  {
    if !(i > 0 && entries[d].attr.mtime == Time(0, 0)) && Overhead(attributes) <= count {
      var listing, room := Live(entries, entries[d].content), count - Overhead(attributes);
      PageFits(listing, i, room, VerfOf(entries, d), attributes, Err(e));
    }
  }

  lemma PageTells(entries: map<Id, Entry>, d: Id, i: nat, count: U32, attributes: Value, page: Page)
    requires HasType(NfsTypes.POST_OP_ATTR, attributes) && Reading(entries, d, i, count, attributes)
    requires Says(entries, d, i, count, attributes, Ok(page))
    ensures Tells(entries, d, i, count, attributes, Ok(page))
  {
    var listing, room := Live(entries, entries[d].content), count - Overhead(attributes);
    PageFits(listing, i, room, VerfOf(entries, d), attributes, Ok(page));
    assert listing[i..][..|page.entries|] == listing[i..i + |page.entries|];
    if i == 0 { FirstPage(listing, room, VerfOf(entries, d), attributes, page); }
  }

  lemma LastCookie(entries: map<Id, Entry>, ids: seq<Id>, i: nat)
    requires (forall k :: k in ids ==> k in entries) && 0 < i <= |ids| == |Live(entries, ids)|
    ensures Live(entries, ids)[i - 1] == EntryValue(ids[i - 1], entries[ids[i - 1]].name)
    ensures CookieAfter(ids, i) == Live(entries, ids)[i - 1].parts[2].h
  {
    LiveAt(EntryOf, entries, ids, i - 1);
  }

  /** The client's loop variables when it has the first `i` entries. A client of something else than a
      directory has none. */
  ghost predicate Holds(entries: map<Id, Entry>, d: Id, i: nat, count: U32, attributes: Value, cookie: U64,
                        verf: seq<Byte>, got: seq<Value>)
    requires HasType(NfsTypes.POST_OP_ATTR, attributes)
  {
    && verf == (if i == 0 then NONE_COOKIE_VERF else VerfOf(entries, d))
    && if d in entries && entries[d].Dir? then
         && Reading(entries, d, i, count, attributes)
         && cookie == CookieAfter(entries[d].content, i) && got == Live(entries, entries[d].content)[..i]
       else
         i == 0 && cookie == 0
  }

  lemma HoldsAtFirst(server: MemFileSystem.FileSystem, d: Id, count: U32, attributes: Value)
    requires server.Valid() && HasType(NfsTypes.POST_OP_ATTR, attributes)
    ensures Holds(server.fs.entries, d, 0, count, attributes, 0, NONE_COOKIE_VERF, [])
  {
    if d in server.fs.entries && server.fs.entries[d].Dir? {
      DirectoriesAreListed(server, d);
      LiveCount(EntryOf, server.fs.entries, server.fs.entries[d].content);
      LiveTyped(server.fs.entries, server.fs.entries[d].content);
    }
  }

  /** A page of at least one entry ends in an entry, so a client that goes on has a cookie. */
  predicate EndsInEntry(vs: seq<Value>) {
    vs != [] && vs[|vs| - 1].VStruct? && |vs[|vs| - 1].parts| >= 3 && vs[|vs| - 1].parts[2].VHyper?
  }

  function CookieOf(vs: seq<Value>): U64
    requires EndsInEntry(vs)
  {
    vs[|vs| - 1].parts[2].h
  }

  lemma Appended(entries: map<Id, Entry>, ids: seq<Id>, i: nat, got: seq<Value>, page: seq<Value>)
    requires (forall k :: k in ids ==> k in entries) && |ids| == |Live(entries, ids)| && i + |page| <= |ids|
    requires got == Live(entries, ids)[..i] && page == Live(entries, ids)[i..i + |page|]
    ensures got + page == Live(entries, ids)[..i + |page|]
    ensures i + |page| == |ids| ==> got + page == Live(entries, ids)
    ensures page != [] ==> EndsInEntry(got + page) && CookieOf(got + page) == CookieAfter(ids, i + |page|)
  {
    var listing, n := Live(entries, ids), i + |page|;
    assert n == |listing| ==> listing[..n] == listing;
    if page != [] {
      LastCookie(entries, ids, n);
      assert listing[..n][n - 1] == listing[n - 1];
    }
  }

  lemma TellsHolds(entries: map<Id, Entry>, d: Id, i: nat, count: U32, attributes: Value, cookie: U64,
                   verf: seq<Byte>, got: seq<Value>, r: Result<Page, Status>)
    requires HasType(NfsTypes.POST_OP_ATTR, attributes) && Holds(entries, d, i, count, attributes, cookie, verf, got)
    requires d in entries && entries[d].Dir? && Tells(entries, d, i, count, attributes, r)
    ensures r.Ok? ==> i + |r.value.entries| <= |entries[d].content|
    ensures r.Ok? && r.value.eof ==> Listed(entries, d) && got + r.value.entries == Live(entries, entries[d].content)
    ensures r.Ok? && !r.value.eof ==> EndsInEntry(got + r.value.entries)
                                      && Holds(entries, d, i + |r.value.entries|, count, attributes,
                                               CookieOf(got + r.value.entries), r.value.verf, got + r.value.entries)
  {
    if r.Ok? { Appended(entries, entries[d].content, i, got, r.value.entries); }
  }

  lemma HoldsAfterPage(entries: map<Id, Entry>, d: Id, i: nat, count: U32, attributes: Value, cookie: U64,
                       verf: seq<Byte>, got: seq<Value>, r: Result<Page, Status>)
    requires HasType(NfsTypes.POST_OP_ATTR, attributes) && Holds(entries, d, i, count, attributes, cookie, verf, got)
    requires Answers(entries, d, cookie, verf, count, attributes, r)
    ensures r.Err? ==> !Listable(entries, d, count, attributes)
    ensures r.Ok? ==> d in entries && entries[d].Dir? && i + |r.value.entries| <= |entries[d].content|
    ensures r.Ok? && r.value.eof ==> Listable(entries, d, count, attributes) && Listed(entries, d)
                                     && got + r.value.entries == Live(entries, entries[d].content)
    ensures r.Ok? && !r.value.eof ==> r.value.entries != [] && EndsInEntry(got + r.value.entries)
                                      && Holds(entries, d, i + |r.value.entries|, count, attributes,
                                               CookieOf(got + r.value.entries), r.value.verf, got + r.value.entries)
  {
    if d in entries && entries[d].Dir? {
      OnePage(entries, d, i, verf, count, attributes, r);
      TellsHolds(entries, d, i, count, attributes, cookie, verf, got, r);
    }
  }

  /** The client has all there is, and the directory can be listed. */
  ghost predicate Finished(entries: map<Id, Entry>, d: Id, count: U32, attributes: Value, got: seq<Value>)
    requires HasType(NfsTypes.POST_OP_ATTR, attributes)
  {
    Listable(entries, d, count, attributes) && Listed(entries, d) && got == Live(entries, entries[d].content)
  }

  /** One request of the loop; `all` is what the client has then. */
  method NextPage(server: MemFileSystem.FileSystem, dirid: Id, cookie: U64, verf: seq<Byte>, count: U32,
                  got: seq<Value>, ghost entries: map<Id, Entry>, ghost i: nat, ghost attributes: Value)
    returns (r: Result<Page, Status>, all: seq<Value>)
    requires entries == server.fs.entries && attributes == PostOpAttributes(entries, dirid)
    requires HasType(NfsTypes.POST_OP_ATTR, attributes)
    requires Holds(entries, dirid, i, count, attributes, cookie, verf, got)
    ensures r.Err? ==> !Listable(entries, dirid, count, attributes)
    ensures r.Ok? ==> IsDirectoryOf(entries, dirid, i + |r.value.entries|)
    ensures r.Ok? && r.value.eof ==> Finished(entries, dirid, count, attributes, all)
    ensures r.Ok? && !r.value.eof ==>
      && r.value.entries != [] && EndsInEntry(all)
      && Holds(entries, dirid, i + |r.value.entries|, count, attributes, CookieOf(all), r.value.verf, all)
  {
    r := ReadDirectory(server, dirid, cookie, verf, count);
    HoldsAfterPage(entries, dirid, i, count, attributes, cookie, verf, got, r);
    all := if r.Ok? then got + r.value.entries else got;
  }

  ghost predicate IsDirectoryOf(entries: map<Id, Entry>, d: Id, n: nat) {
    d in entries && entries[d].Dir? && n <= |entries[d].content|
  }

  ghost function Left(entries: map<Id, Entry>, d: Id, i: nat): int {
    if d in entries && entries[d].Dir? then |entries[d].content| - i else 0
  }

  /** The loop returns every entry of the directory, once and in order, exactly when the directory is listable. */
  method ListDirectory(server: MemFileSystem.FileSystem, dirid: Id, count: U32) returns (r: Result<seq<Value>, Status>)
    requires server.Valid()
    ensures HasType(NfsTypes.POST_OP_ATTR, PostOpAttributes(server.fs.entries, dirid))
    ensures r.Ok? <==> Listable(server.fs.entries, dirid, count, PostOpAttributes(server.fs.entries, dirid))
    ensures r.Ok? ==>
      && Listed(server.fs.entries, dirid)
      && r.value == Live(server.fs.entries, server.fs.entries[dirid].content)
      && AllShown(server.fs.entries, server.fs.entries[dirid].content, r.value)
  {
    ghost var entries := server.fs.entries;
    ghost var attributes := PostOpAttributes(entries, dirid);
    AttributesTyped(entries, dirid);
    HoldsAtFirst(server, dirid, count, attributes);
    var cookie: U64, cookieverf, result := 0, NONE_COOKIE_VERF, [];
    ghost var i: nat := 0;
    while true
      invariant Holds(entries, dirid, i, count, attributes, cookie, cookieverf, result)
      decreases Left(entries, dirid, i)
    {
      var reply, all := NextPage(server, dirid, cookie, cookieverf, count, result, entries, i, attributes);
      if reply.Err? { return Err(reply.error); }
      result := all;
      if reply.value.eof { break; }
      cookie := CookieOf(result);
      cookieverf := reply.value.verf;
      i := i + |reply.value.entries|;
    }
    LiveIsShown(entries, entries[dirid].content);
    r := Ok(result);
  }
}
