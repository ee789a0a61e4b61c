/** READDIRPLUS on the in-memory file system: entries with attributes and handles, in pages within two budgets,
    and the client's loop over the pages. */
module ReaddirPlus {
  import opened Basics
  import opened Xdr
  import opened Tree
  import opened MemFs
  import opened Readdir
  import opened Paging
  import MemFileSystem
  import NfsTypes

  // ---- Entries on the wire ----

  /** The generation number of this server run and the id, each in eight bytes. The id's are in the machine's
      order, taken to be little-endian here. */
  function HandleValue(generation: U64, id: Id): Value {
    VStruct([VBytes(Le64(generation) + Le64(id % 0x1_0000_0000_0000_0000))])
  }

  function Le64(n: U64): (s: seq<Byte>)
    ensures |s| == 8
  {
    var b := Be64(n);
    [b[7], b[6], b[5], b[4], b[3], b[2], b[1], b[0]]
  }

  function PlusValue(generation: U64, id: Id, e: Entry): Value {
    var h := id % 0x1_0000_0000_0000_0000;
    VStruct([VHyper(h), VStruct([VBytes(e.name)]), VHyper(h),
             VArm(0, AttributesValue(e)), VArm(0, HandleValue(generation, id))])
  }

  function PlusOf(generation: U64): (Id, Entry) -> Value {
    (id: Id, e: Entry) => PlusValue(generation, id, e)
  }

  function LivePlus(generation: U64, entries: map<Id, Entry>, ids: seq<Id>): seq<Value> {
    LiveBy(PlusOf(generation), entries, ids)
  }

  lemma FiveTyped(a: Schema, v: Value, b: Schema, w: Value, c: Schema, x: Value, d: Schema, y: Value, e: Schema,
                  z: Value)
    requires HasType(a, v) && HasType(b, w) && HasType(c, x) && HasType(d, y) && HasType(e, z)
    ensures HasType(Struct([a, b, c, d, e]), VStruct([v, w, x, y, z]))
  {}

  lemma PlusTyped(generation: U64, id: Id, e: Entry)
    ensures HasType(NfsTypes.ENTRYPLUS3, PlusValue(generation, id, e))
  {
    var h := id % 0x1_0000_0000_0000_0000;
    var name, handle := VStruct([VBytes(e.name)]), HandleValue(generation, id);
    AttributesTyped(map[id := e], id);
    assert HasType(NfsTypes.FILENAME3, name);
    assert HasType(NfsTypes.NFS_FH3, handle) && HasType(NfsTypes.Optional(NfsTypes.NFS_FH3), VArm(0, handle));
    FiveTyped(Hyper, VHyper(h), NfsTypes.FILENAME3, name, Hyper, VHyper(h), NfsTypes.POST_OP_ATTR,
              VArm(0, AttributesValue(e)), NfsTypes.Optional(NfsTypes.NFS_FH3), VArm(0, handle));
  }

  lemma {:induction false} PlusAllTyped(generation: U64, entries: map<Id, Entry>, ids: seq<Id>)
    ensures NfsTypes.AllOfType(NfsTypes.ENTRYPLUS3, LivePlus(generation, entries, ids))
  {
    if ids != [] {
      PlusAllTyped(generation, entries, ids[1..]);
      if ids[0] in entries { PlusTyped(generation, ids[0], entries[ids[0]]); }
    }
  }

  // ---- One request ----

  /** A page is the longest prefix that both budgets admit; no page when not even one of the entries is admitted. */
  ghost predicate IsPagePlus(attributes: Value, verf: seq<Byte>, entries: seq<Value>, dircount: nat, max: nat,
                             r: Result<Page, Status>)
    requires NfsTypes.AllOfType(NfsTypes.ENTRYPLUS3, entries)
  {
    match r
    case Ok(page) =>
      && LongestFittingPlus(entries, dircount, max, |page.entries|)
      && page == Page(attributes, verf, entries[..|page.entries|], |page.entries| == |entries|)
      && (page.entries != [] || entries == [])
    case Err(status) => status == TOOSMALL && entries != [] && LongestFittingPlus(entries, dircount, max, 0)
  }

  /** The answer to a READDIRPLUS request, which does not look at verifiers. */
  ghost predicate AnswersPlus(generation: U64, entries: map<Id, Entry>, d: Id, cookie: U64, dircount: U32,
                              maxcount: U32, r: Result<Page, Status>)
  {
    if maxcount < 128 then r == Err(TOOSMALL)
    else match Start(entries, d, cookie)
      case Err(e) => r == Err(e)
      case Ok(ids) =>
        PlusAllTyped(generation, entries, ids);
        IsPagePlus(PostOpAttributes(entries, d), VerfOf(entries, d), LivePlus(generation, entries, ids),
                   dircount, maxcount - 128, r)
  }

  /** The list holds the first `i` of the entries. */
  ghost predicate Filled(list: BoundedEntryPlusList, all: seq<Value>, i: nat)
    requires NfsTypes.AllOfType(NfsTypes.ENTRYPLUS3, all)
    reads list, list.entries
  {
    && list.Valid() && i <= |all| && list.entries.items == all[..i]
    && (i > 0 ==> ItemsSize(NfsTypes.ENTRYPLUS3, all[..i]) <= list.entries.maxSize)
  }

  method PushNext(list: BoundedEntryPlusList, v: Value, ghost all: seq<Value>, ghost i: nat) returns (pushed: bool)
    requires NfsTypes.AllOfType(NfsTypes.ENTRYPLUS3, all) && Filled(list, all, i) && i < |all| && v == all[i]
    modifies list, list.entries
    ensures Filled(list, all, if pushed then i + 1 else i)
    ensures !pushed ==> LongestFittingPlus(all, list.dircount, list.entries.maxSize, i)
  {
    assert all[..i] + [all[i]] == all[..i + 1];
    pushed := list.TryPush(v);
  }

  method FillPagePlus(iter: MemFsIterator, show: (Id, Entry) -> Value, dircount: nat, max: nat)
    returns (page: seq<Value>, eof: bool)
    requires iter.Valid() && NfsTypes.AllOfType(NfsTypes.ENTRYPLUS3, iter.Remaining(show))
    modifies iter
    ensures LongestFittingPlus(old(iter.Remaining(show)), dircount, max, |page|)
    ensures page == old(iter.Remaining(show))[..|page|] && (eof <==> |page| == |old(iter.Remaining(show))|)
  {
    ghost var all := iter.Remaining(show);
    var list := new BoundedEntryPlusList(dircount, max);
    ghost var i := 0;
    while true
      invariant iter.Valid() && fresh(list) && fresh(list.entries)
      invariant list.entries.maxSize == max && list.dircount == dircount && Filled(list, all, i)
      invariant iter.Remaining(show) == all[i..]
      decreases |all| - i
    {
      var next := iter.VisitNextEntry(show);
      if next.None? {
        eof := true;
        break;
      }
      assert all[i..][1..] == all[i + 1..];
      var pushed := PushNext(list, next.value, all, i);
      if !pushed {
        eof := false;
        break;
      }
      i := i + 1;
    }
    page := list.entries.items;
  }

  /** The packed reply is well-formed and no longer than the client allows. */
  predicate FitsReplyPlus(page: Page, maxcount: U32) {
    var v := NfsTypes.ListingValue(page.attributes, page.verf, page.entries, page.eof);
    HasType(NfsTypes.READDIRPLUS3RESOK, v) && PackedSize(NfsTypes.READDIRPLUS3RESOK, v) <= maxcount
  }

  lemma ReplyFitsPlus(page: Page, maxcount: U32)
    requires HasType(NfsTypes.POST_OP_ATTR, page.attributes) && |page.verf| == 8 && maxcount >= 128
    requires NfsTypes.AllOfType(NfsTypes.ENTRYPLUS3, page.entries)
    requires page.entries != [] ==> ItemsSize(NfsTypes.ENTRYPLUS3, page.entries) <= maxcount - 128
    ensures FitsReplyPlus(page, maxcount)
  {
    NfsTypes.ListingTyped(NfsTypes.ENTRYPLUS3, page.attributes, page.verf, page.entries, page.eof);
    NfsTypes.ListingSize(NfsTypes.ENTRYPLUS3, page.attributes, page.verf, page.entries, page.eof);
    NfsTypes.OptionalAttributesSize(page.attributes);
  }

  method ReadDirectoryPlus(server: MemFileSystem.FileSystem, generation: U64, dirid: Id, cookie: U64, dircount: U32,
                           maxcount: U32)
    returns (r: Result<Page, Status>)
    ensures AnswersPlus(generation, server.fs.entries, dirid, cookie, dircount, maxcount, r)
    ensures r.Ok? ==> FitsReplyPlus(r.value, maxcount)
    ensures r.Ok? && Listed(server.fs.entries, dirid) ==>
              PageShownPlus(generation, server.fs.entries, server.fs.entries[dirid].content, cookie, r.value)
  {
    r := ReadPagePlus(server, generation, dirid, cookie, dircount, maxcount);
    if r.Ok? && Listed(server.fs.entries, dirid) {
      PageIsShownPlus(generation, server.fs.entries, dirid, cookie, dircount, maxcount, r.value);
    }
  }

  method ReadPagePlus(server: MemFileSystem.FileSystem, generation: U64, dirid: Id, cookie: U64, dircount: U32,
                      maxcount: U32)
    returns (r: Result<Page, Status>)
    ensures AnswersPlus(generation, server.fs.entries, dirid, cookie, dircount, maxcount, r)
    ensures r.Ok? ==> FitsReplyPlus(r.value, maxcount)
  {
    var entries := server.fs.entries;
    AttributesTyped(entries, dirid);
    if maxcount < 128 { return Err(TOOSMALL); }
    var iter := MakeIter(server, dirid, cookie);
    if iter.Err? { return Err(iter.error); }
    PlusAllTyped(generation, entries, Start(entries, dirid, cookie).value);
    var page, eof := FillPagePlus(iter.value, PlusOf(generation), dircount, maxcount - 128);
    if page == [] && !eof { return Err(TOOSMALL); }
    var reply := Page(PostOpAttributes(entries, dirid), VerfOf(entries, dirid), page, eof);
    ReplyFitsPlus(reply, maxcount);
    r := Ok(reply);
  }

  // ---- What a client sees ----

  /** The number whose base-256 digits these are, the least significant first. */
  function FromLe(bytes: seq<Byte>): nat {
    if bytes == [] then 0 else bytes[0] + 256 * FromLe(bytes[1..])
  }

  /** Sixteen bytes that stand for the generation number and the id. */
  predicate IsHandle(generation: U64, id: Id, v: Value) {
    && v.VStruct? && |v.parts| == 1 && v.parts[0].VBytes? && |v.parts[0].bytes| == 16
    && FromLe(v.parts[0].bytes[..8]) == generation && FromLe(v.parts[0].bytes[8..]) == id
  }

  /** The entry with this id: file id, name, cookie, attributes and handle, in this order. */
  predicate ShownPlus(generation: U64, entries: map<Id, Entry>, id: Id, v: Value) {
    && id in entries && id < 0x1_0000_0000_0000_0000
    && v.VStruct? && |v.parts| == 5 && v.parts[0] == VHyper(id) && v.parts[1] == VStruct([VBytes(entries[id].name)])
    && v.parts[2] == VHyper(id)
    && v.parts[3].VArm? && v.parts[3].index == 0 && AttributesShown(entries[id], v.parts[3].body)
    && v.parts[4].VArm? && v.parts[4].index == 0 && IsHandle(generation, id, v.parts[4].body)
  }

  predicate AllShownPlus(generation: U64, entries: map<Id, Entry>, ids: seq<Id>, vs: seq<Value>) {
    |vs| == |ids| && forall i :: 0 <= i < |ids| ==> ShownPlus(generation, entries, ids[i], vs[i])
  }

  lemma Le64Stands(n: U64)
    ensures FromLe(Le64(n)) == n
  {
    var b, l := Be64(n), Le64(n);
    Be64RoundTrip(n);
    FromLeEight(l);
    assert b[..4] == [b[0], b[1], b[2], b[3]] && b[4..] == [b[4], b[5], b[6], b[7]];
  }

  lemma FromLeFour(l: seq<Byte>)
    requires |l| >= 4
    ensures FromLe(l) == l[0] as int + 256 * l[1] as int + 0x1_0000 * l[2] as int + 0x100_0000 * l[3] as int
                         + 0x1_0000_0000 * FromLe(l[4..])
  {
    assert l[1..][1..] == l[2..] && l[2..][1..] == l[3..] && l[3..][1..] == l[4..];
  }

  lemma FromLeEight(l: seq<Byte>)
    requires |l| == 8
    ensures FromLe(l) == FromBe32([l[3], l[2], l[1], l[0]]) as int
                         + 0x1_0000_0000 * FromBe32([l[7], l[6], l[5], l[4]]) as int
  {
    FromLeFour(l);
    FromLeFour(l[4..]);
    assert l[4..][4..] == [];
  }

  lemma HandleStands(generation: U64, id: U64)
    ensures IsHandle(generation, id, HandleValue(generation, id))
  {
    var low := id % 0x1_0000_0000_0000_0000;
    assert low == id;
    Le64Stands(generation);
    Le64Stands(low);
    BytesAreHandle(Le64(generation), Le64(low), generation, id);
  }

  lemma BytesAreHandle(a: seq<Byte>, b: seq<Byte>, generation: U64, id: U64)
    requires |a| == |b| == 8 && FromLe(a) == generation && FromLe(b) == id
    ensures IsHandle(generation, id, VStruct([VBytes(a + b)]))
  {
    assert (a + b)[..8] == a && (a + b)[8..] == b;
  }

  lemma PlusIsShown(generation: U64, entries: map<Id, Entry>, id: Id)
    requires id in entries && id < 0x1_0000_0000_0000_0000
    ensures ShownPlus(generation, entries, id, PlusValue(generation, id, entries[id]))
  {
    AttributesAreShown(entries[id]);
    HandleStands(generation, id);
    PlusParts(generation, id, entries[id]);
    PartsAreShown(generation, entries, id, AttributesValue(entries[id]), HandleValue(generation, id));
  }

  lemma PlusParts(generation: U64, id: U64, e: Entry)
    ensures PlusValue(generation, id, e)
         == VStruct([VHyper(id), VStruct([VBytes(e.name)]), VHyper(id),
                     VArm(0, AttributesValue(e)), VArm(0, HandleValue(generation, id))])
  {
    var h := id % 0x1_0000_0000_0000_0000;
    assert h == id;
  }

  lemma PartsAreShown(generation: U64, entries: map<Id, Entry>, id: Id, a: Value, h: Value)
    requires id in entries && id < 0x1_0000_0000_0000_0000
    requires AttributesShown(entries[id], a) && IsHandle(generation, id, h)
    ensures ShownPlus(generation, entries, id,
                      VStruct([VHyper(id), VStruct([VBytes(entries[id].name)]), VHyper(id), VArm(0, a), VArm(0, h)]))
  {}

  lemma LiveIsShownPlus(generation: U64, entries: map<Id, Entry>, ids: seq<Id>)
    requires forall k :: k in ids ==> k in entries && k < 0x1_0000_0000_0000_0000
    ensures AllShownPlus(generation, entries, ids, LivePlus(generation, entries, ids))
  {
    LiveCount(PlusOf(generation), entries, ids);
    forall i | 0 <= i < |ids| ensures ShownPlus(generation, entries, ids[i], LivePlus(generation, entries, ids)[i]) {
      LiveAt(PlusOf(generation), entries, ids, i);
      PlusIsShown(generation, entries, ids[i]);
    }
  }

  /** The entries from place `i` on, and the end-of-file flag. */
  predicate ShownFromPlus(generation: U64, entries: map<Id, Entry>, content: seq<Id>, i: nat, page: Page) {
    && i + |page.entries| <= |content|
    && AllShownPlus(generation, entries, content[i..i + |page.entries|], page.entries)
    && (page.eof <==> i + |page.entries| == |content|)
  }

  predicate PageShownPlus(generation: U64, entries: map<Id, Entry>, content: seq<Id>, cookie: U64, page: Page) {
    if cookie == 0 then ShownFromPlus(generation, entries, content, 0, page)
    else exists i :: 0 <= i < |content| && content[i] == cookie
                     && ShownFromPlus(generation, entries, content, i + 1, page)
  }

  lemma PageIsShownPlus(generation: U64, entries: map<Id, Entry>, d: Id, cookie: U64, dircount: U32, maxcount: U32,
                        page: Page)
    requires Listed(entries, d) && AnswersPlus(generation, entries, d, cookie, dircount, maxcount, Ok(page))
    ensures PageShownPlus(generation, entries, entries[d].content, cookie, page)
  {
    var content := entries[d].content;
    var i := StartedAt(content, cookie);
    var rest := content[i..];
    assert forall k :: k in rest ==> k in content;
    PlusAllTyped(generation, entries, rest);
    LiveIsShownPlus(generation, entries, rest);
    RestIsShown(generation, entries, content, i, LivePlus(generation, entries, rest), page);
  }

  lemma RestIsShown(generation: U64, entries: map<Id, Entry>, content: seq<Id>, i: nat, listing: seq<Value>, page: Page)
    requires i <= |content| && AllShownPlus(generation, entries, content[i..], listing)
    requires |page.entries| <= |listing| && page.entries == listing[..|page.entries|]
    requires page.eof <==> |page.entries| == |listing|
    ensures ShownFromPlus(generation, entries, content, i, page)
  {
    var ids := content[i..i + |page.entries|];
    forall k | 0 <= k < |ids| ensures ShownPlus(generation, entries, ids[k], page.entries[k]) {
      assert ids[k] == content[i..][k] && page.entries[k] == listing[k];
    }
  }

  /** The refusals before there is an iterator; verifiers are not looked at. */
  lemma RefusedRequestsPlus(generation: U64, entries: map<Id, Entry>, d: Id, cookie: U64, dircount: U32,
                            maxcount: U32, r: Result<Page, Status>)
    requires AnswersPlus(generation, entries, d, cookie, dircount, maxcount, r)
    ensures if maxcount < 128 then r == Err(TOOSMALL)
            else if d !in entries then r == Err(NOENT)
            else if entries[d].File? then r == Err(NOTDIR)
            else cookie != 0 && cookie !in entries[d].content ==> r == Err(BAD_COOKIE)
  {
    if d in entries && entries[d].Dir? && StartAfter(entries[d].content, cookie).Some? {
      var i := StartedAt(entries[d].content, cookie);
    }
  }

  lemma HandleSize(generation: U64, id: U64)
    ensures HasType(NfsTypes.Optional(NfsTypes.NFS_FH3), VArm(0, HandleValue(generation, id)))
    ensures PackedSize(NfsTypes.Optional(NfsTypes.NFS_FH3), VArm(0, HandleValue(generation, id))) == 24
  {
    var h := HandleValue(generation, id);
    assert HasType(NfsTypes.NFS_FH3, h);
    NfsTypes.OneField(OpaqueVar, h.parts[0]);
  }

  /** An entry's size: 132 bytes and its name, padded to words. */
  lemma ShownSizePlus(generation: U64, id: U64, e: Entry)
    ensures HasType(NfsTypes.ENTRYPLUS3, PlusValue(generation, id, e))
    ensures PackedSize(NfsTypes.ENTRYPLUS3, PlusValue(generation, id, e)) == 132 + (|e.name| + 3) / 4 * 4
    ensures DirBytes(PlusValue(generation, id, e)) == 24 + (|e.name| + 3) / 4 * 4
  {
    var name := VStruct([VBytes(e.name)]);
    assert HasType(NfsTypes.FILENAME3, name);
    NfsTypes.OneField(OpaqueVar, VBytes(e.name));
    AttributesTyped(map[id := e], id);
    NfsTypes.OptionalAttributesSize(VArm(0, AttributesValue(e)));
    HandleSize(generation, id);
    PlusParts(generation, id, e);
    PlusSize(id, name, VArm(0, AttributesValue(e)), VArm(0, HandleValue(generation, id)));
  }

  lemma PlusSize(id: U64, name: Value, a: Value, h: Value)
    requires HasType(NfsTypes.FILENAME3, name) && HasType(NfsTypes.POST_OP_ATTR, a)
    requires HasType(NfsTypes.Optional(NfsTypes.NFS_FH3), h)
    ensures var v := VStruct([VHyper(id), name, VHyper(id), a, h]);
            && HasType(NfsTypes.ENTRYPLUS3, v)
            && PackedSize(NfsTypes.ENTRYPLUS3, v)
               == 16 + PackedSize(NfsTypes.FILENAME3, name) + PackedSize(NfsTypes.POST_OP_ATTR, a)
                  + PackedSize(NfsTypes.Optional(NfsTypes.NFS_FH3), h)
            && DirBytes(v) == 20 + PackedSize(NfsTypes.FILENAME3, name)
  {
    var n, at, fh := NfsTypes.FILENAME3, NfsTypes.POST_OP_ATTR, NfsTypes.Optional(NfsTypes.NFS_FH3);
    SizesAdd(n, name, at, a, fh, h, id);
  }

  lemma SizesAdd(s: Schema, v: Value, t: Schema, w: Value, u: Schema, x: Value, id: U64)
    requires HasType(s, v) && HasType(t, w) && HasType(u, x)
    ensures HasType(Struct([Hyper, s, Hyper, t, u]), VStruct([VHyper(id), v, VHyper(id), w, x]))
    ensures PackedSize(Struct([Hyper, s, Hyper, t, u]), VStruct([VHyper(id), v, VHyper(id), w, x]))
         == 16 + PackedSize(s, v) + PackedSize(t, w) + PackedSize(u, x)
  {
    var h := VHyper(id);
    NfsTypes.ThreeFields(Hyper, h, t, w, u, x);
    NfsTypes.OneMoreField(s, v, [Hyper, t, u], [h, w, x]);
    NfsTypes.OneMoreField(Hyper, h, [s] + [Hyper, t, u], [v] + [h, w, x]);
    assert [Hyper] + ([s] + [Hyper, t, u]) == [Hyper, s, Hyper, t, u];
    assert [h] + ([v] + [h, w, x]) == [h, v, h, w, x];
  }

  /** A first request to a directory is refused exactly when one of the budgets does not admit the first entry. */
  lemma TooSmallPlusIff(generation: U64, entries: map<Id, Entry>, d: Id, dircount: U32, maxcount: U32,
                        r: Result<Page, Status>)
    requires Listed(entries, d) && AnswersPlus(generation, entries, d, 0, dircount, maxcount, r) && maxcount >= 128
    ensures var content := entries[d].content;
            && (r.Err? ==> r == Err(TOOSMALL))
            && (r.Err? <==>
                  && content != []
                  && var name := (|entries[content[0]].name| + 3) / 4 * 4;
                     dircount < 24 + name || maxcount < 268 + name)
  {
    var content := entries[d].content;
    PlusAllTyped(generation, entries, content);
    var listing := LivePlus(generation, entries, content);
    LiveCount(PlusOf(generation), entries, content);
    if content != [] {
      LiveAt(PlusOf(generation), entries, content, 0);
      ShownSizePlus(generation, content[0], entries[content[0]]);
      PageAdmits(listing, dircount, maxcount - 128, VerfOf(entries, d), PostOpAttributes(entries, d), r);
    }
  }

  // ---- The client's loop over the pages ----

  /** Both budgets admit the entry alone. */
  predicate AdmitsAlone(v: Value, dircount: nat, max: nat)
    requires HasType(NfsTypes.ENTRYPLUS3, v)
  {
    DirBytes(v) <= dircount && 8 + PackedSize(NfsTypes.ENTRYPLUS3, v) <= max
  }

  /** Every entry is admitted alone. */
  ghost predicate ListablePlus(generation: U64, entries: map<Id, Entry>, d: Id, dircount: U32, maxcount: U32) {
    && d in entries && entries[d].Dir? && maxcount >= 128
    && var listing := LivePlus(generation, entries, entries[d].content);
       PlusAllTyped(generation, entries, entries[d].content);
       forall j :: 0 <= j < |listing| ==> AdmitsAlone(listing[j], dircount, maxcount - 128)
  }

  /** An entry takes no more room than a prefix that has it. */
  lemma EntryFitsPlus(listing: seq<Value>, n: nat, j: nat)
    requires NfsTypes.AllOfType(NfsTypes.ENTRYPLUS3, listing) && j < n <= |listing|
    ensures 8 + PackedSize(NfsTypes.ENTRYPLUS3, listing[j]) <= ItemsSize(NfsTypes.ENTRYPLUS3, listing[..n])
    ensures DirBytes(listing[j]) <= TotalDirBytes(listing[..n])
  {
    assert listing[..j + 1] == listing[..j] + [listing[j]];
    ItemsSizeAppend(NfsTypes.ENTRYPLUS3, listing[..j], listing[j]);
    PrefixIsSmaller(NfsTypes.ENTRYPLUS3, listing, 0, j);
    PrefixIsSmaller(NfsTypes.ENTRYPLUS3, listing, j + 1, n);
    TotalDirBytesStep(listing, j);
    DirBytesGrow(listing, j + 1, n);
  }

  /** A page holds only entries that are admitted alone; no page means that the next entry is not. */
  lemma PageAdmits(listing: seq<Value>, dircount: nat, max: nat, verf: seq<Byte>, attributes: Value,
                   r: Result<Page, Status>)
    requires NfsTypes.AllOfType(NfsTypes.ENTRYPLUS3, listing) && IsPagePlus(attributes, verf, listing, dircount, max, r)
    ensures r.Err? ==> listing != [] && !AdmitsAlone(listing[0], dircount, max)
    ensures r.Ok? ==> |r.value.entries| <= |listing|
                      && forall j :: 0 <= j < |r.value.entries| ==> AdmitsAlone(listing[j], dircount, max)
  {
    if r.Err? {
      assert listing[..1] == [] + [listing[0]];
      ItemsSizeAppend(NfsTypes.ENTRYPLUS3, [], listing[0]);
      TotalDirBytesStep(listing, 0);
    } else {
      forall j | 0 <= j < |r.value.entries| ensures AdmitsAlone(listing[j], dircount, max) {
        EntryFitsPlus(listing, |r.value.entries|, j);
      }
    }
  }

  /** So for a page after the first `i` entries, when they are admitted. */
  lemma PageAdmitsMore(listing: seq<Value>, i: nat, dircount: nat, max: nat, verf: seq<Byte>, attributes: Value,
                       r: Result<Page, Status>)
    requires NfsTypes.AllOfType(NfsTypes.ENTRYPLUS3, listing) && i <= |listing|
    requires IsPagePlus(attributes, verf, listing[i..], dircount, max, r)
    requires forall j :: 0 <= j < i ==> AdmitsAlone(listing[j], dircount, max)
    ensures r.Err? ==> i < |listing| && !AdmitsAlone(listing[i], dircount, max)
    ensures r.Ok? ==>
      var n := i + |r.value.entries|;
      && n <= |listing| && r.value.entries == listing[i..][..|r.value.entries|]
      && (r.value.eof <==> n == |listing|) && (!r.value.eof ==> r.value.entries != [])
      && forall j :: 0 <= j < n ==> AdmitsAlone(listing[j], dircount, max)
  {
    PageAdmits(listing[i..], dircount, max, verf, attributes, r);
    if r.Ok? {
      forall j | i <= j < i + |r.value.entries| ensures AdmitsAlone(listing[j], dircount, max) {
        assert listing[i..][j - i] == listing[j];
      }
    }
  }

  lemma ResumesPlus(generation: U64, entries: map<Id, Entry>, d: Id, i: nat)
    requires Listed(entries, d) && i <= |entries[d].content|
    ensures Start(entries, d, CookieAfter(entries[d].content, i)) == Ok(entries[d].content[i..])
    ensures |LivePlus(generation, entries, entries[d].content)| == |entries[d].content|
    ensures LivePlus(generation, entries, entries[d].content[i..])
         == LivePlus(generation, entries, entries[d].content)[i..]
  {
    Resumes(entries, d, i);
    LiveCount(PlusOf(generation), entries, entries[d].content);
    LiveDrop(PlusOf(generation), entries, entries[d].content, i);
  }

  /** The client has the first `i` entries of a directory, all admitted alone. A client of something else than a
      directory has none. */
  ghost predicate HoldsPlus(generation: U64, entries: map<Id, Entry>, d: Id, i: nat, dircount: U32, maxcount: U32,
                            cookie: U64, got: seq<Value>)
  {
    if d in entries && entries[d].Dir? then
      var listing := LivePlus(generation, entries, entries[d].content);
      PlusAllTyped(generation, entries, entries[d].content);
      && Listed(entries, d) && i <= |listing| == |entries[d].content|
      && cookie == CookieAfter(entries[d].content, i) && got == listing[..i]
      && forall j :: 0 <= j < i ==> maxcount >= 128 && AdmitsAlone(listing[j], dircount, maxcount - 128)
    else
      i == 0 && cookie == 0
  }

  lemma HoldsAtFirstPlus(server: MemFileSystem.FileSystem, generation: U64, d: Id, dircount: U32, maxcount: U32)
    requires server.Valid()
    ensures HoldsPlus(generation, server.fs.entries, d, 0, dircount, maxcount, 0, [])
  {
    if d in server.fs.entries && server.fs.entries[d].Dir? {
      DirectoriesAreListed(server, d);
      LiveCount(PlusOf(generation), server.fs.entries, server.fs.entries[d].content);
    }
  }

  lemma AppendedPlus(generation: U64, entries: map<Id, Entry>, ids: seq<Id>, i: nat, got: seq<Value>, page: seq<Value>)
    requires (forall k :: k in ids ==> k in entries) && |ids| == |LivePlus(generation, entries, ids)|
    requires i + |page| <= |ids|
    requires got == LivePlus(generation, entries, ids)[..i]
    requires page == LivePlus(generation, entries, ids)[i..][..|page|]
    ensures got + page == LivePlus(generation, entries, ids)[..i + |page|]
    ensures i + |page| == |ids| ==> got + page == LivePlus(generation, entries, ids)
    ensures page != [] ==> EndsInEntry(got + page) && CookieOf(got + page) == CookieAfter(ids, i + |page|)
  {
    var listing, n := LivePlus(generation, entries, ids), i + |page|;
    assert listing[i..][..|page|] == listing[i..n];
    assert n == |listing| ==> listing[..n] == listing;
    if page != [] {
      LiveAt(PlusOf(generation), entries, ids, n - 1);
      assert listing[..n][n - 1] == listing[n - 1];
    }
  }

  /** An answer to a client that has the first `i` entries is a page of the rest. */
  lemma AnswerAtPlus(generation: U64, entries: map<Id, Entry>, d: Id, i: nat, dircount: U32, maxcount: U32,
                     cookie: U64, got: seq<Value>, r: Result<Page, Status>)
    requires HoldsPlus(generation, entries, d, i, dircount, maxcount, cookie, got)
    requires AnswersPlus(generation, entries, d, cookie, dircount, maxcount, r)
    requires d in entries && entries[d].Dir? && maxcount >= 128
    ensures var listing := LivePlus(generation, entries, entries[d].content);
            && NfsTypes.AllOfType(NfsTypes.ENTRYPLUS3, listing) && i <= |listing|
            && IsPagePlus(PostOpAttributes(entries, d), VerfOf(entries, d), listing[i..], dircount, maxcount - 128, r)
  {
    ResumesPlus(generation, entries, d, i);
    PlusAllTyped(generation, entries, entries[d].content);
  }

  /** What one answer tells the client. */
  lemma HoldsAfterPagePlus(generation: U64, entries: map<Id, Entry>, d: Id, i: nat, dircount: U32, maxcount: U32,
                           cookie: U64, got: seq<Value>, r: Result<Page, Status>)
    requires HoldsPlus(generation, entries, d, i, dircount, maxcount, cookie, got)
    requires AnswersPlus(generation, entries, d, cookie, dircount, maxcount, r)
    ensures r.Err? ==> !ListablePlus(generation, entries, d, dircount, maxcount)
    ensures r.Ok? ==> IsDirectoryOf(entries, d, i + |r.value.entries|)
    ensures r.Ok? && r.value.eof ==>
      FinishedPlus(generation, entries, d, dircount, maxcount, got + r.value.entries)
    ensures r.Ok? && !r.value.eof ==>
      var all := got + r.value.entries;
      && r.value.entries != [] && EndsInEntry(all)
      && HoldsPlus(generation, entries, d, i + |r.value.entries|, dircount, maxcount, CookieOf(all), all)
  {
    if d in entries && entries[d].Dir? && maxcount >= 128 {
      var content := entries[d].content;
      AnswerAtPlus(generation, entries, d, i, dircount, maxcount, cookie, got, r);
      var listing := LivePlus(generation, entries, content);
      PageAdmitsMore(listing, i, dircount, maxcount - 128, VerfOf(entries, d), PostOpAttributes(entries, d), r);
      if r.Ok? { AppendedPlus(generation, entries, content, i, got, r.value.entries); }
    }
  }

  /** The client has all there is, and the directory can be listed. */
  ghost predicate FinishedPlus(generation: U64, entries: map<Id, Entry>, d: Id, dircount: U32, maxcount: U32,
                               got: seq<Value>)
  {
    && ListablePlus(generation, entries, d, dircount, maxcount) && Listed(entries, d)
    && got == LivePlus(generation, entries, entries[d].content)
  }

  /** One request of the loop; `all` is what the client has then. */
  method NextPagePlus(server: MemFileSystem.FileSystem, generation: U64, dirid: Id, cookie: U64, dircount: U32,
                      maxcount: U32, got: seq<Value>, ghost entries: map<Id, Entry>, ghost i: nat)
    returns (r: Result<Page, Status>, all: seq<Value>)
    requires entries == server.fs.entries
    requires HoldsPlus(generation, entries, dirid, i, dircount, maxcount, cookie, got)
    ensures r.Err? ==> !ListablePlus(generation, entries, dirid, dircount, maxcount)
    ensures r.Ok? ==> IsDirectoryOf(entries, dirid, i + |r.value.entries|)
    ensures r.Ok? && r.value.eof ==> FinishedPlus(generation, entries, dirid, dircount, maxcount, all)
    ensures r.Ok? && !r.value.eof ==>
      && r.value.entries != [] && EndsInEntry(all)
      && HoldsPlus(generation, entries, dirid, i + |r.value.entries|, dircount, maxcount, CookieOf(all), all)
  {
    r := ReadDirectoryPlus(server, generation, dirid, cookie, dircount, maxcount);
    HoldsAfterPagePlus(generation, entries, dirid, i, dircount, maxcount, cookie, got, r);
    all := if r.Ok? then got + r.value.entries else got;
  }

  /** The loop returns every entry of the directory with its attributes and handle, once and in order, exactly
      when both budgets admit each entry alone. */
  method ListDirectoryPlus(server: MemFileSystem.FileSystem, generation: U64, dirid: Id, dircount: U32, maxcount: U32)
    returns (r: Result<seq<Value>, Status>)
    requires server.Valid()
    ensures r.Ok? <==> ListablePlus(generation, server.fs.entries, dirid, dircount, maxcount)
    ensures r.Ok? ==>
      && Listed(server.fs.entries, dirid)
      && r.value == LivePlus(generation, server.fs.entries, server.fs.entries[dirid].content)
      && AllShownPlus(generation, server.fs.entries, server.fs.entries[dirid].content, r.value)
  {
    ghost var entries := server.fs.entries;
    HoldsAtFirstPlus(server, generation, dirid, dircount, maxcount);
    var cookie: U64, result := 0, [];
    ghost var i: nat := 0;
    while true
      invariant HoldsPlus(generation, entries, dirid, i, dircount, maxcount, cookie, result)
      decreases Left(entries, dirid, i)
    {
      var reply, all := NextPagePlus(server, generation, dirid, cookie, dircount, maxcount, result, entries, i);
      if reply.Err? { return Err(reply.error); }
      result := all;
      if reply.value.eof { break; }
      cookie := CookieOf(result);
      i := i + |reply.value.entries|;
    }
    LiveIsShownPlus(generation, entries, entries[dirid].content);
    r := Ok(result);
  }
}
