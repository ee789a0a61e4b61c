/** A directory that a client can list over several pages, until its modification time is set to zero. */
module ReaddirExamples {
  import opened Basics
  import opened Xdr
  import opened Tree
  import opened MemFs
  import opened Readdir
  import opened MemFileSystem
  import NfsTypes
  import Paging
  import TreeRuns
  import TreeExamples

  /** Room for the reply and one entry with a name of one letter. */
  const COUNT: U32 := 140

  /** A directory of two entries with names of one letter. */
  ghost predicate HoldsTwo(entries: map<Id, Entry>, d: Id) {
    && Listed(entries, d) && |entries[d].content| == 2
    && forall k :: k in entries[d].content ==> |entries[k].name| == 1
  }

  lemma EntrySize(id: Id, name: Name)
    requires |name| == 1
    ensures HasType(NfsTypes.ENTRY3, EntryValue(id, name))
    ensures PackedSize(NfsTypes.ENTRY3, EntryValue(id, name)) == 24
  {
    var h := VHyper(id % 0x1_0000_0000_0000_0000);
    NfsTypes.OneField(OpaqueVar, VBytes(name));
    NfsTypes.ThreeFields(Hyper, h, NfsTypes.FILENAME3, VStruct([VBytes(name)]), Hyper, h);
  }

  lemma TwoItems(vs: seq<Value>)
    requires NfsTypes.AllOfType(NfsTypes.ENTRY3, vs) && |vs| == 2
    requires forall i :: 0 <= i < 2 ==> PackedSize(NfsTypes.ENTRY3, vs[i]) == 24
    ensures ItemsSize(NfsTypes.ENTRY3, vs) == 60
  {
    assert vs == [] + [vs[0]] + [vs[1]];
    Paging.ItemsSizeAppend(NfsTypes.ENTRY3, [], vs[0]);
    Paging.ItemsSizeAppend(NfsTypes.ENTRY3, [] + [vs[0]], vs[1]);
  }

  lemma {:induction false} DistinctCount(s: seq<Id>)
    requires NoDuplicates(s)
    ensures |Elements(s)| == |s|
  {
    if s != [] {
      DistinctCount(s[1..]);
      assert s[0] !in s[1..];
      assert Elements(s) == Elements(s[1..]) + {s[0]};
    }
  }

  /** It takes two pages, so it is listable exactly when its time is not zero. */
  lemma TwoPagesNeedTime(entries: map<Id, Entry>, d: Id)
    requires HoldsTwo(entries, d)
    ensures HasType(NfsTypes.POST_OP_ATTR, PostOpAttributes(entries, d))
    ensures Listable(entries, d, COUNT, PostOpAttributes(entries, d)) <==> entries[d].attr.mtime != Time(0, 0)
  {
    var attributes, content := PostOpAttributes(entries, d), entries[d].content;
    var listing := Live(entries, content);
    AttributesTyped(entries, d);
    NfsTypes.OptionalAttributesSize(attributes);
    LiveTyped(entries, content);
    LiveCount(EntryOf, entries, content);
    forall i | 0 <= i < 2 ensures PackedSize(NfsTypes.ENTRY3, listing[i]) == 24 {
      LiveAt(EntryOf, entries, content, i);
      EntrySize(content[i], entries[content[i]].name);
    }
    TwoItems(listing);
  }

  /** A mkdir by a directory that is there has one outcome. */
  lemma MkdirIsMade(s: TreeRuns.State, d: Id, name: Name, s': TreeRuns.State)
    requires TreeRuns.Good(s) && s.next < U64_LIMIT - 1 && d in s.nodes && s.nodes[d].DirNode?
    requires TreeRuns.Request(s, TreeRuns.MkdirOp(d, name), s')
    ensures s' == TreeExamples.Made(s, d, name)
  {}

  lemma RootHoldsTwo(server: FileSystem, s1: TreeRuns.State)
    requires server.Valid() && s1 == TreeExamples.Made(TreeRuns.INITIAL, ROOT, TreeExamples.A)
    requires ROOT in s1.nodes && s1.nodes[ROOT].DirNode?
    requires server.State() == TreeExamples.Made(s1, ROOT, TreeExamples.B)
    ensures HoldsTwo(server.fs.entries, ROOT)
  {
    var t, entries := server.fs.Nodes(), server.fs.entries;
    assert ROOT in entries && entries[ROOT].Dir? && NodeOf(entries[ROOT]) == t[ROOT];
    DirectoriesAreListed(server, ROOT);
    var content := entries[ROOT].content;
    assert forall k :: k in content <==> k in Elements(content);
    DistinctCount(content);
    assert |{2, 3}| == 2;
    assert NodeOf(entries[2]) == t[2] && NodeOf(entries[3]) == t[3];
  }

  method SetTime(server: FileSystem, t: Time, now: Time)
    requires server.Valid() && HoldsTwo(server.fs.entries, ROOT)
    modifies server.fs, server`edits
    ensures server.Valid() && HoldsTwo(server.fs.entries, ROOT) && server.fs.entries[ROOT].attr.mtime == t
  {
    var reply := server.SetAttributes(ROOT, UNCHANGED.(mtime := SET_TO_CLIENT_TIME(t)), now);
  }

  /** mkdir a, mkdir b, and the client lists the root; a request sets its time to zero, and the client, asking for
      pages of the same size, fails. */
  method ZeroTimeStopsListing(now: Time, t: Time)
    returns (server: FileSystem, before: Result<seq<Value>, Status>, after: Result<seq<Value>, Status>)
    requires t != Time(0, 0)
    ensures fresh(server) && server.Valid() && HoldsTwo(server.fs.entries, ROOT)
    ensures before.Ok? && |before.value| == 2 && after.Err?
  {
    server := new FileSystem(now);
    TreeExamples.StartIsGood();
    var a := server.MkdirRequest(ROOT, TreeExamples.A, now);
    MkdirIsMade(TreeRuns.INITIAL, ROOT, TreeExamples.A, server.State());
    ghost var s1 := server.State();
    var b := server.MkdirRequest(ROOT, TreeExamples.B, now);
    MkdirIsMade(s1, ROOT, TreeExamples.B, server.State());
    RootHoldsTwo(server, s1);
    SetTime(server, t, now);
    TwoPagesNeedTime(server.fs.entries, ROOT);
    LiveCount(EntryOf, server.fs.entries, server.fs.entries[ROOT].content);
    before := ListDirectory(server, ROOT, COUNT);
    SetTime(server, Time(0, 0), now);
    TwoPagesNeedTime(server.fs.entries, ROOT);
    after := ListDirectory(server, ROOT, COUNT);
  }
}
