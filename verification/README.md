# A verified model of nfs3

This project models the parts of the `nfs3` workspace that carry its guarantees, and proves them with Dafny
4.11. `dafny verify dfyconfig.toml` checks everything. Six subjects are covered.

**The in-memory file system** (`Tree`, `TreeOps`, `TreeRuns`, `TreePaths`, `TreeNames`, `TreeExamples`,
`FileData`, `MemFs`, `MemFileSystem`). `MemFs.Fs` is the flat map of entries that the server changes in place;
`MemFileSystem.FileSystem` adds the id counter and the request handlers' checks. What an operation does to the
structure is said once, by functions on a map of nodes (`TreeOps`); the methods are proved to do that, and the
theorems are about those functions: which operations keep one rooted tree, for every run; what a rename does to
path names, for every path; that a file is the bytes last written. A directory's content is a hash set; it is a
sequence here, the set in its current iteration order, and inserting and removing may leave any order. The
clock, client identities and host ids are parameters.

**Listing a directory** (`NfsTypes`, `Paging`, `Readdir`, `ReaddirPlus`, `ReaddirExamples`). READDIR and
READDIRPLUS within byte budgets, with the real sizes of the wire types, and the client's loops over the pages.

**The XDR codec** (`Xdr`, `XdrLaws`, `XdrStream`, `WireBytes`). The derive macro is modelled once: a `Schema` is
a type with a codec, and the generic functions say what the generated code writes and reads. The methods in
`XdrStream` work on streams with running byte counts as the generated code does. A variant of an enum without
data is a tag with a body of type `Void`, so the plain enums, the tagged enums and the hand-written
`accept_stat_data`, `rejected_reply` and `Nfs3Option` codecs are all `Union`s. The bit mask in the padding
functions is a remainder modulo 4, which is the same on 64-bit sizes. `WireBytes` says which bytes the types and
messages of the other modules are.

**The retransmission tracker** (`ClientTable`, `ClientTransactions`, `Tracker`, `TrackerExamples`).
`ClientTransactions` is one client's table as it is kept; `Tracker` is the concurrent protocol, one step for
each stretch of code under the locks it holds. A thread reads the clock before it takes a lock, so a step may
carry an instant that has passed. A history variable remembers what was accepted and finished, so that the
guarantee can be stated. Cleanup visits the clients one by one, which allows more interleavings than the code,
where it holds the map.

**RPC** (`Records`, `RpcTypes`, `RpcServer`, `RpcClient`, `RpcExchange`, `RpcReplies`, `Retransmission`).
Fragments and records, the server's way from the bytes of a call to the bytes of its reply, and the client's way
from those to a value or an error. What a procedure computes is a parameter. What the tracker says to a call is
one as well, until `Retransmission` takes it from a run of the tracker.

**The mirror caches** (`Symbols`, `IteratorCache`, `MirrorListing`, `MirrorFs`, `MirrorExamples`). The table of
handles, and the cache that keeps directory streams between requests. `MirrorListing` is the state machine over
streams held by iterators and by cache slots; a stream is a value that moves, as in the source. What is on disk
is a parameter.

## What turned out to need a condition

The code has properties that hold only under a condition. Each is proved in both directions, and where requests
lead to the failure there is a run of them.

- A rename keeps the tree exactly when it is not a relinked "." or ".." and does not move a file to a directory
  that is missing (`TreeOps.RenameKeepsTreeIff`). The handler checks for the missing directory
  (`TreeRuns.RenamingIntoNowhereBreaks` is what it keeps out); nothing checks for "." and "..", as `remove`
  does: `TreeExamples.RenamingDotBreaks` is a run of two mkdirs and a rename that puts a directory in two
  places. A request with live directories keeps the tree unless it may relink one of these
  (`TreeRuns.RenameKeepsGoodIff`), and each that may can break it (`TreeRuns.MovingDotsBreaks`).
- A new entry keeps the tree exactly when it is not a directory asked to be its own parent
  (`TreeOps.PushKeepsTreeIff`). The handler checks that the parent is there.
- `mkdir` does not look whether a name is taken: names stay unique exactly when it was not
  (`TreePaths.PushKeepsUniqueNamesIff`; `TreeExamples.MkdirTwiceBreaksNames` is a run of two mkdirs of one
  name), and in every run whose mkdirs take free names they do (`TreeNames.RunKeepsUniqueNames`).
- A rename that fails changes something exactly when it is refused for going into its own subtree and there is
  an entry in its way: that empty directory is gone (`TreeOps.OrdinaryRename`;
  `TreeExamples.RefusedRenameRemovesTarget` is a run of three mkdirs and a rename that loses it).
- The cookie verifier of a directory is its modification time, and a time of zero cannot be told from no
  verifier: such a directory is listed exactly when one page is enough (`Readdir.ListDirectory`).
  `ReaddirExamples.ZeroTimeStopsListing` makes two directories and lists them in two pages; after a request that
  sets the time to zero the same client fails. READDIRPLUS has no such condition
  (`ReaddirPlus.ListDirectoryPlus`).
- The tracker takes a second start of an xid for a retransmission, unless its table has outgrown the trim limit
  in between or the retention period is over (`Tracker.AtMostOnce`). Which entry trimming forgets is
  `ClientTable.TrimForgetsIff`; after that its xid is accepted exactly when there is room
  (`Tracker.TrimmedIsNew`), and `TrackerExamples.TrimForgetsRecent` is a run in which an xid is accepted twice
  at one instant. For a server this says that a client's xid has two procedures run only if the tracker has let
  go of it in between (`Retransmission.ExecutedAtMostOnce`).
- With tags that are not distinct, a value comes back exactly when each of its variants is the first of its tag
  (`XdrLaws.RoundTripIff`; `XdrLaws.SharedTagLosesVariant` for any enum that has two). A failed result whose
  code is that of success does not come back (`NfsTypes.ReplyRoundTripIff`), nor does the default device type
  (`NfsTypes.MknodRoundTripIff`).
- Two entries of mirrored listings of fewer than 2^32 entries have one cookie exactly when they are at one place
  and their listings' numbers agree modulo 2^32 (`MirrorListing.ShortListingsMeetIff`; `CookiesMeetIff` for
  listings of any length). With no more than 2^32 listings they never have (`MirrorListing.CookiesAreDistinct`),
  and `MirrorExamples.CookiesMeet` is a run of 2^32 + 1 listings in which two do. A client that comes back
  continues right after its entry exactly when that stream is the first one waiting that its cookie may stand
  for (`MirrorListing.ResumeContinuesIff`); `MirrorExamples.WrongStreamContinues` goes on from the run above to
  a client that gets another listing's entry.

## Model

| member | source | states |
|---|---|---|
| MemFs.Fs.constructor | crates/nfs3_server/src/memfs/mod.rs:312-322 | a new file system is one root directory with its attributes, a tree |
| MemFs.Fs.Lookup | crates/nfs3_server/src/memfs/mod.rs:403-433 | the first entry of the name in iteration order, with ".", ".." and every error case |
| MemFs.LookupFinds | crates/nfs3_server/src/memfs/mod.rs:403-433 | on a tree a lookup fails only for a missing or wrong directory or a name no entry has, and finds an entry of the name otherwise |
| TreeOps.LookupAnswers | crates/nfs3_server/src/memfs/mod.rs:403-433 | what a lookup answers in a tree: NOENT and NOTDIR for what is no directory, the directory itself for ".", the one that has it for "..", an entry of the name, or NOENT when there is none |
| MemFs.Fs.Push | crates/nfs3_server/src/memfs/mod.rs:324-358 | the entry and the parent's content change as specified, the entry is taken out again when the parent is wrong |
| MemFs.Fs.Remove | crates/nfs3_server/src/memfs/mod.rs:360-393 | exactly the entry found goes, unless it is a directory with content; refusals change nothing |
| MemFs.Fs.CheckNotBelow | crates/nfs3_server/src/memfs/mod.rs:491-514 | the walk up the parents ends on every tree, and says INVAL exactly when the destination is the directory or below it |
| MemFs.Fs.Relink | crates/nfs3_server/src/memfs/mod.rs:516-544 | the three last steps of a rename, with the state left by each that fails |
| MemFs.Fs.MakeRoom | crates/nfs3_server/src/memfs/mod.rs:457-487 | an entry with the new name goes when it is of the same kind and empty, and refuses the rename otherwise |
| MemFs.Fs.Rename | crates/nfs3_server/src/memfs/mod.rs:435-545 | whatever the names, the structure and the reply are the specified ones, a tree comes out exactly under the stated condition, and every file keeps its data |
| MemFs.AttributesGetSet | crates/nfs3_server/src/memfs/mod.rs:270-302 | owner, group and times become what a request asks for, a file gets its size in zeros or loses its end, and the rest stays |
| TreeOps.PushKeepsTreeIff | crates/nfs3_server/src/memfs/mod.rs:324-358 | adding an entry keeps the tree iff it is not a directory that is its own parent |
| TreeOps.RemoveKeepsTree | crates/nfs3_server/src/memfs/mod.rs:360-393 | every remove keeps one rooted tree |
| TreeOps.RenameKeepsTreeIff | crates/nfs3_server/src/memfs/mod.rs:435-545 | a rename keeps one rooted tree iff it is neither a relinked "." or ".." nor a file moved to a missing directory |
| TreeOps.DotsMoveNothing | crates/nfs3_server/src/memfs/mod.rs:457-544 | any other rename of "." or ".." succeeds only onto itself, and changes nothing but that an entry in its way may be gone |
| TreeOps.RenameAnswers | crates/nfs3_server/src/memfs/mod.rs:441-514 | for any names: which renames answer what without touching anything, and which succeed, by what is found under the two names |
| TreeOps.OrdinaryRename | crates/nfs3_server/src/memfs/mod.rs:457-543 | with ordinary names and live directories: a file and a directory never replace each other (NOTDIR), nor anything a directory that holds something (NOTEMPTY); no SERVERFAULT, NOENT only for a missing source, INVAL iff into its own subtree, and a failure changes the tree iff it is that INVAL with an entry in the way, which is then gone |
| Tree.NoCycle | crates/nfs3_server/src/memfs/mod.rs:491-514 | in a tree no entry is below itself by a path of some length |
| Tree.MoveKeepsTree | crates/nfs3_server/src/memfs/mod.rs:516-544 | re-parenting outside the moved subtree keeps the tree; the whole subtree's depths shift |
| TreeRuns.RequestKeepsGood | crates/nfs3_server/src/nfs_handlers.rs:755-784 | a request that passes the handler's checks, and is not a rename that may relink "." or "..", keeps the tree and gives out an id never used |
| TreeRuns.RenameKeepsGoodIff | crates/nfs3_server/src/nfs_handlers.rs:755-784 | between live directories a rename, of whatever name, keeps the tree iff it does not relink "." or ".." |
| TreeRuns.MovingDotsBreaks | crates/nfs3_server/src/memfs/mod.rs:409-417 | every request that may relink "." or ".." has an outcome that is no tree |
| TreeRuns.RunKeepsTree | crates/nfs3_server/src/memfs/mod.rs:324-545 | in every state of every run of requests that relinks no "." or ".." the entries are one rooted tree with ids below the counter |
| TreeRuns.IdsAreNotReused | crates/nfs3_server/src/memfs/mod.rs:589-648 | in such a run an id that is gone stays gone for the rest of it |
| TreeExamples.RenamingDotBreaks | crates/nfs3_server/src/memfs/mod.rs:409-417 | two mkdirs and a rename of "." by live directories leave an entry in two directories |
| TreeExamples.RefusedRenameRemovesTarget | crates/nfs3_server/src/memfs/mod.rs:457-514 | three mkdirs and a rename that answers INVAL and has removed the empty directory in its way |
| TreeExamples.MkdirTwiceBreaksNames | crates/nfs3_server/src/memfs/mod.rs:589-610 | two mkdirs of one name leave two entries of it |
| TreeRuns.RenamingIntoNowhereBreaks | crates/nfs3_server/src/memfs/mod.rs:517-528 | there is a tree in which renaming a file to a missing directory loses it |
| TreePaths.OnePath | crates/nfs3_server/src/memfs/mod.rs:650-662 | with unique sibling names an entry has one path |
| TreePaths.RenameMovesSubtree | crates/nfs3_server/src/memfs/mod.rs:435-545 | after a rename of s/a to z/b, z/b/rest leads where s/a/rest led, s/a/rest leads nowhere, every other path leads where it led, and names are still unique |
| TreePaths.CreateKeepsUniqueNames | crates/nfs3_server/src/memfs/mod.rs:610-648 | create keeps sibling names unique |
| TreePaths.PushKeepsUniqueNamesIff | crates/nfs3_server/src/memfs/mod.rs:589-608 | mkdir keeps sibling names unique iff the name was free |
| TreePaths.RemoveKeepsUniqueNames | crates/nfs3_server/src/memfs/mod.rs:360-393 | remove keeps sibling names unique |
| TreePaths.RenameKeepsUniqueNames | crates/nfs3_server/src/memfs/mod.rs:435-545 | a rename that does not relink "." or ".." keeps sibling names unique, whatever it answers |
| TreeNames.RunKeepsUniqueNames | crates/nfs3_server/src/memfs/mod.rs:324-545 | in every run whose mkdirs take free names and that relinks no "." or "..", sibling names are unique in every state |
| FileData.ReadReturnsSlice | crates/nfs3_server/src/memfs/mod.rs:146-159 | a read returns the bytes of the range that exist, and eof exactly when none follow |
| FileData.ContentsAreLastWritten | crates/nfs3_server/src/memfs/mod.rs:139-173 | after any sequence of writes and resizes each byte is the one last written there, or zero |
| MemFileSystem.FileHoldsLastWritten | crates/nfs3_server/src/memfs/mod.rs:139-173 | in a valid file system each byte of a file is the one last written or resized there since it was created, and size and used are its length |
| MemFileSystem.FileSystem.constructor | crates/nfs3_server/src/memfs/mod.rs:557-587 | the file system starts as the initial state of every run |
| MemFileSystem.FileSystem.AddDir | crates/nfs3_server/src/memfs/mod.rs:589-608 | mkdir takes the next id whether or not it succeeds |
| MemFileSystem.FileSystem.AddFile | crates/nfs3_server/src/memfs/mod.rs:610-648 | create refuses a taken name, unless the verifier is the existing file's |
| MemFileSystem.FileSystem.SetAttributes | crates/nfs3_server/src/memfs/mod.rs:270-303 | times, owners and size change as asked, and nothing else does |
| MemFileSystem.FileSystem.Write | crates/nfs3_server/src/memfs/mod.rs:161-173 | a write without a gap overwrites and grows, anything else is refused; size and used stay the length |
| MemFileSystem.FileSystem.Read | crates/nfs3_server/src/memfs/mod.rs:708-718 | reads of files only |
| MemFileSystem.FileSystem.PathToId | crates/nfs3_server/src/memfs/mod.rs:650-662 | the loop resolves the path, skipping empty components |
| MemFileSystem.NonEmptyInOrder | crates/nfs3_server/src/memfs/mod.rs:650-661 | of a path's pieces the empty ones are passed over and the others stay in order |
| MemFileSystem.FileSystem.MkdirRequest | crates/nfs3_server/src/nfs_handlers.rs:822-839 | the request is a step of a run; it answers NOENT or NOTDIR for what is no directory, and otherwise adds an empty directory with the next id and the attributes of a new one, and nothing else changes |
| MemFileSystem.FileSystem.CreateRequest | crates/nfs3_server/src/nfs_handlers.rs:580-638 | the request is a step of a run, a guarded one is refused before an id is taken; every answer, and the file it makes: zeros of the size asked for, owner and times asked for, or empty with its verifier; nothing else changes |
| MemFileSystem.FileSystem.RemoveRequest | crates/nfs3_server/src/nfs_handlers.rs:716-732 | the request is a step of a run; every answer, and what goes is one file or empty directory of the name and nothing else |
| MemFileSystem.FileSystem.RenameRequest | crates/nfs3_server/src/nfs_handlers.rs:755-784 | the request is a step of a run, answers what is stated for every case, and keeps the file system valid iff it does not relink "." or ".." |
| MemFileSystem.ReadWholeFile | crates/nfs3_tests/src/just_client.rs:128-158 | the client's loop ends and returns exactly the file, or the error of a single read |
| XdrLaws.RoundTrip | crates/nfs3_macros/src/lib.rs:125-407 | for every type with distinct tags, unpacking a packed value followed by any bytes gives the value and leaves those bytes |
| XdrLaws.RoundTripIff | crates/nfs3_macros/src/lib.rs:278-302 | for any type, a packed value comes back iff each of its variants is the first that has its tag |
| XdrLaws.PackedSizeIsLength | crates/nfs3_macros/src/lib.rs:259-276 | packed_size is the number of bytes written, a multiple of four |
| XdrLaws.UnpackIgnoresSuffix | crates/nfs3_macros/src/lib.rs:186-193 | a successful unpack is not changed by bytes appended |
| XdrLaws.UnpackIsTyped | crates/nfs3_macros/src/lib.rs:278-302 | whatever decodes is a value of the type, and its variants are the first of their tags |
| XdrLaws.UnpackTakesItsSize | crates/nfs3_macros/src/lib.rs:278-302 | decoding takes off exactly as many bytes as the value has when packed |
| XdrLaws.OtherFlagsAreRefused | crates/nfs3_types/src/xdr_codec/primitives.rs:97-106 | a flag that is neither 0 nor 1 is refused by its value |
| XdrLaws.OtherTagsAreRefused | crates/nfs3_macros/src/lib.rs:278-302 | a tag no variant has is refused by its value, or stands for the default of an enum that has one |
| XdrLaws.PaddingIsIgnored | crates/nfs3_types/src/xdr_codec/opaque.rs:88-110 | what padding holds makes no difference |
| XdrLaws.ShortReads | crates/nfs3_types/src/xdr_codec/primitives.rs:26-144 | input that ends too early is an I/O error |
| XdrLaws.PacksIff | crates/nfs3_types/src/xdr_codec/opaque.rs:69-86 | packing fails iff the value holds a default variant or a length over 32 bits |
| XdrLaws.PackErrors | crates/nfs3_types/src/xdr_codec/opaque.rs:69-86 | which error is reported when packing fails |
| XdrLaws.SmallValuesPack | crates/nfs3_types/src/xdr_codec/opaque.rs:69-86 | so values of less than 2^32 packed bytes pack, in types without default variants |
| XdrLaws.TruncatedFails | crates/nfs3_types/src/xdr_codec/primitives.rs:26-144 | no strict prefix of the encoding of a value of first variants decodes |
| XdrLaws.EncodingsArePrefixFree | crates/nfs3_types/src/xdr_codec/list.rs:54-73 | no encoding of a value of first variants begins another of the same type |
| XdrLaws.SharedTagLosesVariant | crates/nfs3_macros/src/lib.rs:278-302 | of two variants with one tag the later never comes back |
| Xdr.AddPadding | crates/nfs3_types/src/xdr_codec/util.rs:2-6 | the least multiple of four that holds the size |
| Xdr.GetPadding | crates/nfs3_types/src/xdr_codec/util.rs:8-11 | fewer than four bytes, that complete the size to a multiple of four |
| Xdr.Unpack | crates/nfs3_macros/src/lib.rs:186-193 | decoding never takes more bytes than there are |
| Xdr.FindArm | crates/nfs3_macros/src/lib.rs:354-407 | the first variant of a tag, if any |
| XdrStream.ByteSource.ReadExact | crates/nfs3_types/src/xdr_codec/primitives.rs:26-33 | all the bytes asked for, or an error |
| XdrStream.Pack | crates/nfs3_macros/src/lib.rs:125-257 | writes exactly the encoding and returns its length, or fails as specified |
| XdrStream.PackOpaque | crates/nfs3_types/src/xdr_codec/opaque.rs:69-86 | length, bytes and zero padding, refusing lengths over 32 bits |
| XdrStream.PackVector | crates/nfs3_types/src/xdr_codec/primitives.rs:113-125 | count and words, refusing counts over 32 bits |
| XdrStream.PackItems | crates/nfs3_types/src/xdr_codec/list.rs:43-51 | a true before each item and a false at the end |
| XdrStream.PackFields | crates/nfs3_macros/src/lib.rs:125-218 | the fields in order, with the sum of their lengths |
| XdrStream.PackTagged | crates/nfs3_macros/src/lib.rs:233-257 | the tag, then what it announces |
| XdrStream.PackedSize | crates/nfs3_macros/src/lib.rs:259-276 | the specified size |
| XdrStream.Unpack | crates/nfs3_macros/src/lib.rs:278-302 | reads exactly the decoded value's bytes and counts them, or fails as specified |
| XdrStream.UnpackPadded | crates/nfs3_types/src/xdr_codec/opaque.rs:89-106 | bytes and padding, the padding's contents ignored |
| XdrStream.UnpackItems | crates/nfs3_types/src/xdr_codec/list.rs:58-73 | items as long as a true comes first |
| XdrStream.UnpackUnion | crates/nfs3_macros/src/lib.rs:394-405 | the variant of the tag, an error or the default for an unknown one |
| WireBytes.WordOnWire | crates/nfs3_types/src/xdr_codec/primitives.rs:45-63 | a word is four bytes, the most significant first |
| WireBytes.HyperOnWire | crates/nfs3_types/src/xdr_codec/primitives.rs:65-83 | eight bytes, the more significant word first |
| WireBytes.BooleanOnWire | crates/nfs3_types/src/xdr_codec/primitives.rs:85-95 | true is the word 1 and false the word 0 |
| WireBytes.OpaqueOnWire | crates/nfs3_types/src/xdr_codec/opaque.rs:69-86 | the length, the bytes, and zeros up to a multiple of four |
| WireBytes.VectorOnWire | crates/nfs3_types/src/xdr_codec/primitives.rs:5-42 | the count and the words |
| WireBytes.ListOnWire | crates/nfs3_types/src/xdr_codec/list.rs:43-52 | a one before each item and a zero at the end |
| WireBytes.FieldsOnWire | crates/nfs3_macros/src/lib.rs:125-257 | fields are on the wire one after the other |
| WireBytes.OptionalOnWire | crates/nfs3_types/src/nfs3.rs:131-138 | an optional value is 1 and the value, an absent one is 0 |
| WireBytes.FileTypeOnWire | crates/nfs3_types/src/nfs3.rs:705-714 | regular files are 1 and directories 2 |
| WireBytes.SetTimeOnWire | crates/nfs3_types/src/nfs3.rs:907-915 | leave is 0, the server's time 1, and 2 before a time |
| WireBytes.DeviceOnWire | crates/nfs3_types/src/nfs3.rs:986-1003 | character device 4, block device 3, socket 6, pipe 7 |
| WireBytes.AttributesOnWire | crates/nfs3_types/src/nfs3.rs:644-658 | the 84 bytes of an entry's attributes, field by field |
| WireBytes.EntryOnWire | crates/nfs3_types/src/nfs3.rs:628-633 | a READDIR entry is file id, name, cookie |
| WireBytes.EntryPlusOnWire | crates/nfs3_types/src/nfs3.rs:635-642 | a READDIRPLUS entry has attributes and handle after these, each announced by a 1 |
| WireBytes.ListingOnWire | crates/nfs3_types/src/nfs3.rs:431-436 | a listing is attributes, verifier, entries, end-of-file flag |
| WireBytes.SuccessOnWire | crates/nfs3_types/src/nfs3.rs:67-90 | a result is 0 and the value |
| WireBytes.FailureOnWire | crates/nfs3_types/src/nfs3.rs:67-90 | a failure is its code and what goes with it |
| WireBytes.StatusCodesIff | crates/nfs3_types/src/nfs3.rs:792-823 | which codes there are; another one is refused by its value |
| WireBytes.AuthOnWire | crates/nfs3_types/src/rpc.rs:120-123 | a flavor, 0 to 3, and a body |
| WireBytes.UnixOnWire | crates/nfs3_types/src/rpc.rs:160-166 | a UNIX identity field by field |
| WireBytes.CallOnWire | crates/nfs3_types/src/rpc.rs:181-188 | a call is xid, 0, 2, program, version, procedure, credential, verifier |
| WireBytes.AcceptedOnWire | crates/nfs3_types/src/rpc.rs:190-194 | an accepted reply is xid, 1, 0, an empty verifier and the status |
| WireBytes.StatOnWire | crates/nfs3_types/src/rpc.rs:197-206 | the statuses are 0, 1, 2 with a range, 3, 4 and 5 |
| WireBytes.DeniedOnWire | crates/nfs3_types/src/rpc.rs:253-262 | a denied reply is xid, 1, 1, and 0 with the versions or 1 with the reason |
| WireBytes.FragmentOnWire | crates/nfs3_types/src/rpc.rs:19-53 | a fragment is its length, with the top bit set on the last one, and its bytes |
| NfsTypes.AttributesAre84Bytes | crates/nfs3_types/src/nfs3.rs:643-658 | file attributes always take 84 bytes |
| NfsTypes.OptionalAttributesSize | crates/nfs3_types/src/nfs3.rs:131-138 | optional attributes take 88 bytes or 4 |
| NfsTypes.ListingSize | crates/nfs3_types/src/nfs3.rs:430-435 | the size of a directory reply is that of its attributes, its list and twelve bytes |
| NfsTypes.ReplyRoundTripIff | crates/nfs3_types/src/nfs3.rs:36-107 | a result comes back iff it is not a failure with the code of success |
| NfsTypes.ReplyPacksAsUnion | crates/nfs3_types/src/nfs3.rs:67-88 | every other result packs as an enum with one variant a status |
| NfsTypes.ReplyUnpacksAsUnion | crates/nfs3_types/src/nfs3.rs:90-107 | every result is decoded as that enum is, errors included |
| NfsTypes.ReplyDistinct | crates/nfs3_types/src/nfs3.rs:791-823 | that enum has distinct tags, so the laws of the codec and of calls apply to it |
| NfsTypes.MknodRoundTripIff | crates/nfs3_types/src/nfs3.rs:988-1040 | device data packs iff it is not the default, and then comes back |
| NfsTypes.DirectoryTypesDistinct | crates/nfs3_types/src/nfs3.rs:430-456 | the round trip applies to both directory replies |
| NfsTypes.DeviceDataDistinct | crates/nfs3_types/src/nfs3.rs:731-738 | and to device data |
| Paging.BoundedList.TryPush | crates/nfs3_types/src/xdr_codec/list.rs:96-106 | an item is taken iff the packed list with it is within the budget; the running size is the packed size |
| Paging.BoundedEntryPlusList.TryPush | crates/nfs3_server/src/nfs_ext.rs:48-63 | an entry is taken iff both budgets admit it |
| Paging.LongestIsUnique | crates/nfs3_server/src/nfs_handlers.rs:446-517 | a sequence of entries has one longest fitting prefix |
| Paging.OnlyOneLength | crates/nfs3_server/src/nfs_handlers.rs:342-405 | both budgets together admit one longest prefix |
| Readdir.VerfIsNoneIff | crates/nfs3_server/src/nfs_ext.rs:14-26 | a directory's verifier is that of a first request iff its time is zero |
| Readdir.VerfIsTime | crates/nfs3_server/src/nfs_ext.rs:14-22 | a directory's verifier is the seconds and nanoseconds of its time |
| Readdir.MemFsIterator.VisitNextEntry | crates/nfs3_server/src/memfs/mod.rs:851-868 | what is shown of the live entries comes in order, those removed meanwhile skipped |
| Readdir.MemFsIterator.Next | crates/nfs3_server/src/memfs/mod.rs:871-879 | yields the live entries as READDIR shows them |
| Readdir.MakeIter | crates/nfs3_server/src/memfs/mod.rs:664-683 | an iterator over the entries after the cookie's, or each refusal |
| Readdir.SkipTo | crates/nfs3_server/src/memfs/mod.rs:664-683 | a child's id as cookie continues right after that child |
| Readdir.FillPage | crates/nfs3_server/src/nfs_handlers.rs:446-500 | a page is the longest prefix within the budget, eof iff nothing is left |
| Readdir.ReadDirectory | crates/nfs3_server/src/nfs_handlers.rs:409-518 | every refusal in order, else the longest fitting page of the entries as they are shown; with the xid the reply packs to at most count |
| Readdir.PageIsShown | crates/nfs3_server/src/nfs_handlers.rs:469-517 | a page holds the entries after the cookie's in order, each as file id, name and cookie, and says whether it is the last |
| Readdir.RefusedRequests | crates/nfs3_server/src/nfs_handlers.rs:421-476 | the refusals before there is an iterator, in their order, with the sizes and verifiers that decide |
| Readdir.TooSmallIff | crates/nfs3_server/src/nfs_handlers.rs:500-512 | a first request is refused with TOOSMALL iff the first entry does not fit, in bytes |
| Readdir.DirectoriesAreListed | crates/nfs3_server/src/memfs/mod.rs:664-683 | in a valid file system every child of a directory is there, once, with an id that can be a cookie |
| Readdir.OnePage | crates/nfs3_server/src/nfs_handlers.rs:424-517 | a page that is not the last makes progress; an error shows that the directory cannot be listed |
| Readdir.ListDirectory | crates/nfs3_tests/src/just_client.rs:160-195 | the client's loop ends and returns every child once and in order, by file id, name and cookie, iff each entry fits alone and, when the time is zero, all fit together |
| ReaddirExamples.TwoPagesNeedTime | crates/nfs3_server/src/nfs_handlers.rs:421-446 | a directory of two pages is listable iff its time is not zero |
| ReaddirExamples.ZeroTimeStopsListing | crates/nfs3_server/src/nfs_handlers.rs:421-446 | two mkdirs, and the client lists them; a setattr, and the same client fails |
| ReaddirPlus.FillPagePlus | crates/nfs3_server/src/nfs_handlers.rs:342-384 | a page is the longest prefix of what the iterator has left that both budgets admit, eof iff it is all |
| ReaddirPlus.ReadDirectoryPlus | crates/nfs3_server/src/nfs_handlers.rs:342-405 | every refusal in order, else the longest page that both budgets admit, which packs to at most maxcount |
| ReaddirPlus.PlusIsShown | crates/nfs3_server/src/memfs/mod.rs:881-894 | an entry is shown by file id, name, cookie, attributes and handle, part by part |
| ReaddirPlus.HandleStands | crates/nfs3_server/src/vfs/handle.rs:117-124 | a handle is 16 bytes that stand for the generation number and the id |
| ReaddirPlus.PageIsShownPlus | crates/nfs3_server/src/nfs_handlers.rs:351-405 | a page holds the entries after the cookie's in order, as they are shown, and says whether it is the last |
| ReaddirPlus.RefusedRequestsPlus | crates/nfs3_server/src/nfs_handlers.rs:342-356 | the refusals before there is an iterator; verifiers are not looked at |
| ReaddirPlus.ShownSizePlus | crates/nfs3_server/src/nfs_ext.rs:48-53 | an entry packs to 132 bytes and its name padded to words; its share of the directory budget is 24 and the name |
| ReaddirPlus.TooSmallPlusIff | crates/nfs3_server/src/nfs_handlers.rs:384-391 | a first request is refused with TOOSMALL iff one of the budgets does not admit the first entry, in bytes |
| ReaddirPlus.HoldsAfterPagePlus | crates/nfs3_server/src/nfs_handlers.rs:351-405 | an error shows that the directory cannot be listed, the last page that all was given, any other page makes progress |
| ReaddirPlus.ListDirectoryPlus | crates/nfs3_tests/tests/large_folders.rs:155-205 | the client's loop ends and returns every child once and in order, by file id, name, cookie, attributes and handle, iff maxcount is at least 128 and both budgets admit each entry alone |
| ClientTransactions.Transactions.FindTransaction | crates/nfs3_server/src/transaction_tracker.rs:176-191 | fast path and binary search agree with a search in turn |
| ClientTransactions.Transactions.AddTransaction | crates/nfs3_server/src/transaction_tracker.rs:193-207 | refusals, insertion in order and trimming as specified |
| ClientTransactions.Transactions.TrimIfNeeded | crates/nfs3_server/src/transaction_tracker.rs:247-258 | finished entries go from the front while over the limit |
| ClientTransactions.Transactions.RemoveOldTransactions | crates/nfs3_server/src/transaction_tracker.rs:221-229 | stale entries go from the front |
| ClientTransactions.Transactions.CompleteTransaction | crates/nfs3_server/src/transaction_tracker.rs:209-217 | the entry is marked finished, under the assertion that it is in progress |
| ClientTransactions.Transactions.DropLock | crates/nfs3_server/src/transaction_tracker.rs:282-289 | completes and prunes, keeping the table in order |
| ClientTransactions.Transactions.IsActiveClient | crates/nfs3_server/src/transaction_tracker.rs:231-243 | active while recently used or holding an entry that is not stale |
| ClientTable.FindIsMembership | crates/nfs3_server/src/transaction_tracker.rs:176-191 | the search finds exactly what is in the table |
| ClientTable.TrimForgetsIff | crates/nfs3_server/src/transaction_tracker.rs:247-258 | which entry trimming forgets |
| ClientTable.TrimKeeps | crates/nfs3_server/src/transaction_tracker.rs:247-258 | trimming drops no entry in progress, and none at all within the limit |
| ClientTable.PruneKeeps | crates/nfs3_server/src/transaction_tracker.rs:221-229 | pruning drops stale entries only |
| ClientTable.PruneForgetsIff | crates/nfs3_server/src/transaction_tracker.rs:219-229 | which entries go: exactly those that have expired, as all their predecessors have |
| ClientTable.FinishForgetsIff | crates/nfs3_server/src/transaction_tracker.rs:282-288 | which other entries the end of a transaction forgets |
| ClientTable.AddKeeps | crates/nfs3_server/src/transaction_tracker.rs:193-207 | after a start the table is sorted and counts its running entries, and a start is accepted iff the xid is new and there is room |
| ClientTable.FinishKeeps | crates/nfs3_server/src/transaction_tracker.rs:209-217 | after an end the table is sorted and counts its running entries |
| Tracker.StepKeepsInv | crates/nfs3_server/src/transaction_tracker.rs:29-93 | every step of every thread keeps the protocol's invariant |
| Tracker.LocksAndCounters | crates/nfs3_server/src/transaction_tracker.rs:35-69 | in every reachable state a client's locks are one to a transaction and on the table in the map, and the counter is the number of locks and of running entries |
| Tracker.ReplayIsRefused | crates/nfs3_server/src/transaction_tracker.rs:193-207 | a start of an xid underway or finished within the retention period is answered AlreadyExists, however busy the client |
| Tracker.AtMostOnce | crates/nfs3_server/src/transaction_tracker.rs:29-93 | a start of an accepted xid is answered AlreadyExists, unless it was trimmed in between, or finished longer ago than the retention period |
| Tracker.AbsentIsNew | crates/nfs3_server/src/transaction_tracker.rs:193-207 | a start of an xid that the client's table does not hold is never taken for a retransmission, and accepted iff there is room |
| Tracker.TrimmedIsNew | crates/nfs3_server/src/transaction_tracker.rs:247-258 | right after it was trimmed an xid is accepted iff there is room |
| Tracker.ExpiredIsNew | crates/nfs3_server/src/transaction_tracker.rs:219-229 | after a drop or a cleanup the xid of an entry that has expired with all its predecessors is accepted iff there is room |
| Tracker.CleanupForgetsIff | crates/nfs3_server/src/transaction_tracker.rs:79-93 | a client leaves the map iff its last activity is a retention period ago and all its entries have expired |
| TrackerExamples.TrimForgetsRecent | crates/nfs3_server/src/transaction_tracker.rs:247-258 | a run in which trimming lets an xid in twice at one instant |
| Records.HeaderRoundTrip | crates/nfs3_types/src/rpc.rs:23-60 | every header word is the header of exactly one length and flag |
| Records.StreamIsReceived | crates/nfs3_server/src/rpcwire/messages.rs:17-52 | however records are cut, exactly the original messages are delivered in order, up to a record boundary |
| Records.TruncatedRecordIsNotReceived | crates/nfs3_server/src/rpcwire/messages.rs:41-52 | a record cut short delivers nothing |
| Records.ReceivedWasSent | crates/nfs3_server/src/rpcwire/messages.rs:17-52 | whatever comes in, what is delivered is the whole records at the front of it |
| Records.SocketMessageHandler.RecvFragment | crates/nfs3_server/src/rpcwire/messages.rs:41-52 | appends one fragment without its header, and says whether it was the last |
| Records.SocketMessageHandler.Recv | crates/nfs3_server/src/rpcwire/messages.rs:17-32 | a message becomes complete with its last fragment |
| Records.SocketMessageHandler.Read | crates/nfs3_server/src/rpcwire.rs:191-203 | one turn delivers a complete message and nothing else |
| Records.SocketMessageHandler.Serve | crates/nfs3_server/src/tcp.rs:58-65 | the loop delivers all the stream holds |
| Records.WriteFragment | crates/nfs3_server/src/rpcwire.rs:136-149 | a reply goes out as a record in one piece |
| RpcTypes.MessagesAreSound | crates/nfs3_types/src/rpc.rs:108-326 | no RPC message type shares a tag or has a default variant, so the round trip applies |
| RpcServer.ProgramDispatchIsSensible | crates/nfs3_server/src/nfs_handlers.rs:30-67 | every refusal of a program, version or procedure is a well-formed reply |
| RpcReplies.WhatIsRefused | crates/nfs3_server/src/rpcwire.rs:68-80 | which program, version and procedure is refused with which status |
| RpcReplies.OtherVersionIsDenied | crates/nfs3_server/src/rpcwire.rs:42-45 | a call of another RPC version is denied whatever the tracker says, and the client gets RpcMismatch |
| RpcReplies.ConnectionEnds | crates/nfs3_server/src/rpcwire.rs:37-50 | a reply, or a UNIX credential that is none, ends the connection |
| RpcServer.PackedLength | crates/nfs3_client/src/rpc.rs:85-107 | a message packs to the sum of the announced sizes, a multiple of four |
| RpcServer.TryFrom | crates/nfs3_server/src/rpcwire/messages.rs:70-98 | a call is taken apart, anything else refused |
| RpcServer.PackMessage | crates/nfs3_server/src/rpcwire/messages.rs:159-172 | the header and then the body |
| RpcServer.Handle | crates/nfs3_server/src/rpcwire.rs:84-109 | the handler runs iff the arguments take up all the data, otherwise GARBAGE_ARGS |
| RpcServer.HandleRpcMessage | crates/nfs3_server/src/rpcwire.rs:28-82 | version, credential, retransmission and program in that order |
| RpcClient.SendCall | crates/nfs3_client/src/rpc.rs:85-107 | a call goes out as one record; the length checks never fail |
| RpcClient.RecvReply | crates/nfs3_client/src/rpc.rs:109-155 | exactly one record is read and judged |
| RpcClient.RpcClient.BeginCall | crates/nfs3_client/src/rpc.rs:65-82 | the call goes out under the current xid, which moves on and wraps |
| RpcClient.RpcClient.Call | crates/nfs3_client/src/rpc.rs:55-83 | the reply is judged by the xid of the call |
| RpcClient.ServerSeesCall | crates/nfs3_server/src/rpcwire/messages.rs:70-98 | the server takes out the xid, header and arguments the client put in, with nothing left over |
| RpcClient.ClientSeesReply | crates/nfs3_client/src/rpc.rs:109-155 | the client takes out the value the server put in, for its own xid only |
| RpcClient.CallComesBack | crates/nfs3_client/src/rpc.rs:55-155 | what a call comes to in every case: the result, the error of each refusal, silence for a retransmission, GARBAGE_ARGS for extra bytes |
| RpcClient.ErrorComesBack | crates/nfs3_client/src/rpc.rs:138-144 | every status but success arrives as an error |
| RpcReplies.RefusalsComeBack | crates/nfs3_client/src/error.rs:102-116 | each status arrives as its own error: 1 ProgUnavail, 2 ProgMismatch, 3 ProcUnavail, 4 GarbageArgs, 5 SystemErr |
| RpcReplies.DenialComesBack | crates/nfs3_client/src/error.rs:92-100 | a denial arrives as RpcMismatch or as Auth |
| RpcReplies.MismatchComesBack | crates/nfs3_server/src/rpcwire.rs:42-45 | the server's answer to another RPC version arrives as RpcMismatch |
| RpcReplies.OtherXidIsRefused | crates/nfs3_client/src/rpc.rs:128-130 | any message with another xid is UnexpectedXid |
| RpcReplies.CallIsRefused | crates/nfs3_client/src/rpc.rs:132-136 | a call is UnexpectedCall |
| RpcReplies.ResultIsWhole | crates/nfs3_client/src/rpc.rs:144-153 | after the header of a success comes one value and nothing else, else the decoder's error or NotFullyParsed |
| RpcReplies.BadFramesAreRefused | crates/nfs3_client/src/rpc.rs:111-124 | a stream that ends within the reply is Disconnected, a reply in more than one fragment ends the client |
| RpcClient.UnixCredentialIsGood | crates/nfs3_types/src/rpc.rs:134-149 | a credential made of UNIX identities is accepted |
| RpcClient.OverTheWire | crates/nfs3_server/src/rpcwire.rs:136-149 | however it is cut a call arrives as packed, and a reply is read up to the next one |
| RpcExchange.WholeCall | crates/nfs3_client/src/rpc.rs:55-155 | however a call is cut, the server receives that message, and what the client reads off the wire is what the call has to come to |
| RpcExchange.Exchange | crates/nfs3_server/src/rpcwire.rs:28-203 | the methods of client and server one after the other bring back the result, or the error, or nothing, as they have to |
| Retransmission.RetransmissionIsSilent | crates/nfs3_server/src/rpcwire.rs:52-66 | in a run of the tracker a second call with an accepted xid gets no reply, whatever it asks for, unless the tracker has let go of the xid |
| Retransmission.NotExecutedNotAsked | crates/nfs3_server/src/rpcwire.rs:94-109 | a call whose procedure is not run is answered the same whatever the procedures do |
| Retransmission.ExecutedAtMostOnce | crates/nfs3_server/src/rpcwire.rs:111-133 | a client's xid has two procedures run only if the tracker has let go of it in between |
| Symbols.SymbolsTable.InsertOrResolve | crates/cargo_nfs3_server/src/mirror/symbols_cache/table.rs:21-24 | a name has one symbol, new iff the name is |
| Symbols.SymbolsTable.ResolvePath | crates/cargo_nfs3_server/src/mirror/symbols_cache/table.rs:26-33 | every symbol of a known path is found |
| Symbols.SymbolsCache.constructor | crates/cargo_nfs3_server/src/mirror/symbols_cache/mod.rs:84-106 | the table starts with the root alone |
| Symbols.SymbolsCache.HandleToPath | crates/cargo_nfs3_server/src/mirror/symbols_cache/mod.rs:117-124 | the path of a known handle |
| Symbols.SymbolsCache.LookupPath | crates/cargo_nfs3_server/src/mirror/symbols_cache/mod.rs:28-72 | the known handle, an error of the check, or a new handle |
| Symbols.SymbolsCache.LookupByHandle | crates/cargo_nfs3_server/src/mirror/symbols_cache/mod.rs:126-134 | the same below a handle |
| Symbols.LookupKeepsSound | crates/cargo_nfs3_server/src/mirror/symbols_cache/mod.rs:28-72 | the two maps stay mutual inverses, prefix-closed, over known symbols, and only grow |
| Symbols.LookupNames | crates/cargo_nfs3_server/src/mirror/symbols_cache/mod.rs:28-72 | a handle's path is its parent's path and the name |
| Symbols.LookupIff | crates/cargo_nfs3_server/src/mirror/symbols_cache/mod.rs:44-60 | found iff known before, unchecked, or on disk |
| Symbols.LookupRefuses | crates/cargo_nfs3_server/src/mirror/symbols_cache/mod.rs:44-60 | BadHandle for a parent that has no handle or is gone, NoEnt for a name that is not there; then nothing but names is added |
| Symbols.LookupGives | crates/cargo_nfs3_server/src/mirror/symbols_cache/mod.rs:44-60 | a name found before keeps its handle, any other gets the next one |
| Symbols.HandlesAreDistinct | crates/cargo_nfs3_server/src/mirror/symbols_cache/mod.rs:28-72 | two handles have one path iff they are one |
| Symbols.ParentHasHandle | crates/cargo_nfs3_server/src/mirror/symbols_cache/mod.rs:28-72 | every handle's parent has a handle |
| Symbols.RunKeepsSound | crates/cargo_nfs3_server/src/mirror/symbols_cache/mod.rs:84-143 | in every state of every run |
| Symbols.HandleIsForever | crates/cargo_nfs3_server/src/mirror/symbols_cache/mod.rs:126-143 | a name under a handle gets one handle for the rest of the run, whatever happens on disk |
| IteratorCache.TrimDropsOldest | crates/cargo_nfs3_server/src/mirror/iterator_cache.rs:84-96 | trimming keeps the allowed number of slots, none older than one it drops |
| IteratorCache.TrimSorts | crates/cargo_nfs3_server/src/mirror/iterator_cache.rs:84-96 | what trimming keeps is sorted by time, slots of one instant in their order |
| IteratorCache.RetainedKeepsYoung | crates/cargo_nfs3_server/src/mirror/iterator_cache.rs:74-81 | cleanup keeps exactly the slots that are young enough |
| IteratorCache.RetainedInOrder | crates/cargo_nfs3_server/src/mirror/iterator_cache.rs:74-81 | slots are judged one by one and stay in their order |
| IteratorCache.CleanedIff | crates/cargo_nfs3_server/src/mirror/iterator_cache.rs:74-81 | over the whole cache: exactly the young slots are there, and no directory without slots |
| IteratorCache.SwapRemoveTakesOne | crates/cargo_nfs3_server/src/mirror/iterator_cache.rs:48-57 | taking a slot out loses no other |
| IteratorCache.SwapRemoveAt | crates/cargo_nfs3_server/src/mirror/iterator_cache.rs:48-57 | the last slot takes the place of the one taken out, the others keep theirs |
| IteratorCache.Cache.GenerateBaseCookie | crates/cargo_nfs3_server/src/mirror/iterator_cache.rs:41-45 | the counter in the upper half; it wraps around |
| IteratorCache.Cache.PopState | crates/cargo_nfs3_server/src/mirror/iterator_cache.rs:48-57 | the first slot of the cookie is taken out |
| IteratorCache.Cache.CacheState | crates/cargo_nfs3_server/src/mirror/iterator_cache.rs:60-71 | a slot is added and the directory trimmed |
| IteratorCache.Cache.Cleanup | crates/cargo_nfs3_server/src/mirror/iterator_cache.rs:74-81 | stale slots and empty directories go |
| MirrorFs.InitializeReadDir | crates/cargo_nfs3_server/src/mirror/mod.rs:97-134 | a fresh stream for cookie 0, the cached one of the cookie otherwise, and each refusal |
| MirrorFs.GetOrCreateIterator | crates/cargo_nfs3_server/src/mirror/mod.rs:78-95 | the iterator, the cache and the counter are those of the state machine's opening step; a refusal changes nothing |
| MirrorFs.MirrorFsIterator.NextEntryCommon | crates/cargo_nfs3_server/src/mirror/iterator.rs:48-74 | an entry pulled is an entry given out: the handle table never fails, and the handle stands for the directory's path and the name |
| MirrorFs.MirrorFsIterator.Drop | crates/cargo_nfs3_server/src/mirror/iterator.rs:77-90 | the stream goes into the cache with its cookie |
| MirrorListing.PullAnswers | crates/cargo_nfs3_server/src/mirror/iterator.rs:48-90 | a fault changes nothing, an entry moves stream and cookie on by one, the end closes the stream |
| MirrorListing.StepKeepsInv | crates/cargo_nfs3_server/src/mirror/iterator.rs:48-90 | every step keeps each stream in one iterator or slot, at the place its cookie says |
| MirrorListing.RunKeepsInv | crates/cargo_nfs3_server/src/mirror/iterator_cache.rs:41-96 | in every state of every run |
| MirrorListing.EntryIsInPlace | crates/cargo_nfs3_server/src/mirror/iterator.rs:62-68 | an entry's cookie is its listing's base and its place, and its name is the one at that place |
| MirrorListing.CookiesAreProper | crates/cargo_nfs3_server/src/mirror/iterator_cache.rs:41-45 | in listings of fewer than 2^32 entries every cookie given out fits 64 bits and is not the zero of a first request |
| MirrorListing.CookiesAreDistinct | crates/cargo_nfs3_server/src/mirror/iterator_cache.rs:41-45 | with no more than 2^32 listings of fewer than 2^32 entries no cookie is given out twice |
| MirrorListing.ResumeContinuesIff | crates/cargo_nfs3_server/src/mirror/mod.rs:124-133 | coming back with an entry's cookie continues right after that entry iff its stream is the first one waiting that the cookie may stand for |
| MirrorListing.ResumeContinues | crates/cargo_nfs3_server/src/mirror/mod.rs:124-133 | with no more than 2^32 listings, coming back is refused or continues in that directory with the entry after it |
| MirrorListing.RunListsInOrder | crates/cargo_nfs3_server/src/mirror/iterator.rs:48-90 | over a whole run of any length a listing's entries are given out in order, none left out, none twice, and all when its stream is at the end |
| MirrorListing.CookiesMeetIff | crates/cargo_nfs3_server/src/mirror/iterator_cache.rs:41-45 | two entries given out have one cookie iff their places agree modulo 2^32 and make up for what their listings' numbers, modulo 2^32, differ by; then they are of two listings |
| MirrorListing.ShortListingsMeetIff | crates/cargo_nfs3_server/src/mirror/iterator_cache.rs:41-45 | with fewer than 2^32 entries a listing: iff they are at one place and the numbers agree modulo 2^32 |
| MirrorExamples.CookiesMeet | crates/cargo_nfs3_server/src/mirror/iterator_cache.rs:41-45 | a run of 2^32 + 1 listings that gives out one cookie twice |
| MirrorExamples.WrongStreamContinues | crates/cargo_nfs3_server/src/mirror/mod.rs:124-133 | such a run in which a client that comes back is given the next entry of the other listing |

## Left out

- Sockets, tasks, channels, connectors and port mapper lookup: streams are byte sequences that end. The exact
  read of the client's own I/O trait does not stop on a read of no bytes; no claim is made about its ending.
- MemFileSystem.FileSystem.Read: an offset and count whose sum overflows 64 bits end the request in the source;
  the answer here is `None`, and `ReadWholeFile` is proved for files shorter than 2^63 bytes, which vectors are.
- MemFs configuration with initial files, symlinks (which it refuses) and lookups by the mount protocol.
- The locks of a request in the file system: each request is one step, and a handler's check is taken together
  with the operation that follows it.
- Symbols.SymbolsTable.InsertOrResolve: symbols are unbounded here, the source panics when its 32-bit table is
  full.
- Symbols.SymbolsCache.LookupPath: handles are proved for fewer than 2^64 - 2 of them, as are file system ids.
- The operating system's file system behind the mirror: metadata, opening, renaming, reading.
- Paging over the mirror's iterators in the request handlers: a page that is cut has pulled one entry more than
  it returns, so the stream is cached at a later cookie than the client's. Cookies are proved at the iterators.
- RpcClient.RpcClient.Call: messages of 2^31 bytes and more, for which the source panics, are excluded.
- MirrorListing.CookiesMeetIff: cookies are unbounded here; in a listing of more than 2^32 entries of the last
  counters the source's 64 bits would overflow.
- RpcServer.HandleRpcMessage: the port mapper and mount programs' own handlers are a parameter.
- Logging, display, string conversion, command line, constant replies, read-only adapter and checking of
  file handles: nothing in them is hard. Ids in handles are little-endian here, in the machine's order there.
- Guards of SETATTR, the before-and-after data of changed directories, and attributes in replies other than
  listings: comparisons and copies.
- Re-encoding of received bytes: padding contents are not looked at, so it would not give the bytes back.
