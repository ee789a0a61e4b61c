/** The bytes themselves: what stands on the wire for the types and messages of the other modules. */
module WireBytes {
  import opened Basics
  import opened Xdr
  import opened NfsTypes
  import opened RpcTypes
  import opened MemFs
  import Readdir
  import Records

  /** The value is of the type and goes on the wire as these bytes. */
  predicate OnWire(s: Schema, v: Value, b: seq<Byte>) {
    HasType(s, v) && Pack(s, v) == Ok(b)
  }

  predicate AllOnWire(fields: seq<Schema>, parts: seq<Value>, b: seq<Byte>) {
    && |parts| == |fields| && (forall i :: 0 <= i < |fields| ==> HasType(fields[i], parts[i]))
    && PackFields(fields, parts) == Ok(b)
  }

  // ---- Numbers, padding, strings, lists ----

  /** Four bytes, the most significant first. */
  lemma WordOnWire(n: U32)
    ensures var b := Be32(n);
            && |b| == 4 && n == b[0] as int * 0x100_0000 + b[1] as int * 0x1_0000 + b[2] as int * 0x100 + b[3] as int
            && OnWire(Uint, VUint(n), b)
    ensures n < 256 ==> Be32(n) == [0, 0, 0, n]
  {
    Be32RoundTrip(n);
  }

  /** Eight bytes, the more significant word first. */
  lemma HyperOnWire(h: U64)
    ensures Be64(h) == Be32(h / 0x1_0000_0000) + Be32(h % 0x1_0000_0000) && OnWire(Hyper, VHyper(h), Be64(h))
    ensures h < 256 ==> Be64(h) == [0, 0, 0, 0, 0, 0, 0, h]
  {}

  lemma BooleanOnWire()
    ensures OnWire(Boolean, VBool(true), [0, 0, 0, 1]) && OnWire(Boolean, VBool(false), [0, 0, 0, 0])
  {}

  /** The length, the bytes, and zeros up to a multiple of four. */
  lemma OpaqueOnWire(bytes: seq<Byte>) returns (zeros: seq<Byte>)
    requires |bytes| < 0x1_0000_0000
    ensures |zeros| < 4 && (|bytes| + |zeros|) % 4 == 0 && forall i :: 0 <= i < |zeros| ==> zeros[i] == 0
    ensures OnWire(OpaqueVar, VBytes(bytes), Be32(|bytes|) + (bytes + zeros))
    ensures OnWire(OpaqueFixed(|bytes|), VBytes(bytes), bytes + zeros)
  {
    zeros := Zeros(GetPadding(|bytes|));
  }

  /** The count and the words. */
  lemma VectorOnWire(ns: seq<U32>)
    requires |ns| < 0x1_0000_0000
    ensures OnWire(UintVec, VUints(ns), Be32(|ns|) + PackUints(ns))
  {
    var v := VUints(ns);
    assert v.ns == ns && HasType(UintVec, v);
    assert Pack(UintVec, v) == Ok(Be32(|v.ns|) + PackUints(v.ns));
  }

  lemma WordsOnWire(n: U32, ns: seq<U32>)
    ensures PackUints([]) == [] && PackUints([n] + ns) == Be32(n) + PackUints(ns)
  {
    assert ([n] + ns)[1..] == ns;
  }

  /** A one before each item, and a zero at the end. */
  lemma ListOnWire(item: Schema, v: Value, first: seq<Byte>, items: seq<Value>, rest: seq<Byte>)
    requires OnWire(item, v, first) && OnWire(ListOf(item), VList(items), rest)
    ensures OnWire(ListOf(item), VList([]), [0, 0, 0, 0])
    ensures OnWire(ListOf(item), VList([v] + items), [0, 0, 0, 1] + (first + rest))
  {
    assert ([v] + items)[1..] == items;
  }

  // ---- Structs and enums ----

  lemma NoneOnWire()
    ensures AllOnWire([], [], [])
  {}

  /** One field more. */
  lemma FieldOnWire(s: Schema, v: Value, x: seq<Byte>, fields: seq<Schema>, parts: seq<Value>, y: seq<Byte>)
    requires OnWire(s, v, x) && AllOnWire(fields, parts, y)
    ensures AllOnWire([s] + fields, [v] + parts, x + y)
  {
    var all, values := [s] + fields, [v] + parts;
    assert all[1..] == fields && values[1..] == parts;
    forall i | 0 <= i < |all| ensures HasType(all[i], values[i]) {
      if i > 0 { assert all[i] == fields[i - 1] && values[i] == parts[i - 1]; }
    }
  }

  lemma FirstOnWire(fields: seq<Schema>, parts: seq<Value>, b: seq<Byte>) returns (first: seq<Byte>, rest: seq<Byte>)
    requires AllOnWire(fields, parts, b) && fields != []
    ensures OnWire(fields[0], parts[0], first) && AllOnWire(fields[1..], parts[1..], rest) && b == first + rest
  {
    first, rest := Pack(fields[0], parts[0]).value, PackFields(fields[1..], parts[1..]).value;
  }

  lemma {:induction false} FieldsOnWire(a: seq<Schema>, v: seq<Value>, x: seq<Byte>,
                                        b: seq<Schema>, w: seq<Value>, y: seq<Byte>)
    requires AllOnWire(a, v, x) && AllOnWire(b, w, y)
    ensures AllOnWire(a + b, v + w, x + y)
  {
    if a == [] {
      assert a + b == b && v + w == w && x + y == y;
    } else {
      var first, rest := FirstOnWire(a, v, x);
      FieldsOnWire(a[1..], v[1..], rest, b, w, y);
      FieldOnWire(a[0], v[0], first, a[1..] + b, v[1..] + w, rest + y);
      Regrouped(a, b);
      Regrouped(v, w);
      ConcatAssoc(first, rest, y);
    }
  }

  lemma Regrouped<T>(a: seq<T>, b: seq<T>)
    requires a != []
    ensures [a[0]] + (a[1..] + b) == a + b
  {}

  lemma OneOnWire(s: Schema, v: Value, b: seq<Byte>)
    requires OnWire(s, v, b)
    ensures AllOnWire([s], [v], b)
  {
    NoneOnWire();
    FieldOnWire(s, v, b, [], [], []);
    assert [s] + [] == [s] && [v] + [] == [v] && b + [] == b;
  }

  lemma TwoOnWire(s: Schema, v: Value, x: seq<Byte>, t: Schema, w: Value, y: seq<Byte>)
    requires OnWire(s, v, x) && OnWire(t, w, y)
    ensures AllOnWire([s, t], [v, w], x + y)
  {
    OneOnWire(t, w, y);
    FieldOnWire(s, v, x, [t], [w], y);
    assert [s] + [t] == [s, t] && [v] + [w] == [v, w];
  }

  lemma ThreeOnWire(s: Schema, v: Value, x: seq<Byte>, t: Schema, w: Value, y: seq<Byte>,
                    u: Schema, q: Value, z: seq<Byte>)
    requires OnWire(s, v, x) && OnWire(t, w, y) && OnWire(u, q, z)
    ensures AllOnWire([s, t, u], [v, w, q], x + (y + z))
  {
    TwoOnWire(t, w, y, u, q, z);
    FieldOnWire(s, v, x, [t, u], [w, q], y + z);
    assert [s] + [t, u] == [s, t, u] && [v] + [w, q] == [v, w, q];
  }

  lemma StructOnWire(fields: seq<Schema>, parts: seq<Value>, b: seq<Byte>)
    requires AllOnWire(fields, parts, b)
    ensures OnWire(Struct(fields), VStruct(parts), b)
  {}

  lemma ArmOnWire(arms: seq<Arm>, open: bool, i: nat, v: Value, b: seq<Byte>)
    requires i < |arms| && OnWire(arms[i].body, v, b)
    ensures OnWire(Union(arms, open), VArm(i, v), Be32(arms[i].tag) + b)
  {}

  lemma EmptyArmOnWire(arms: seq<Arm>, open: bool, i: nat)
    requires i < |arms| && arms[i].body == Void && arms[i].tag < 256
    ensures OnWire(Union(arms, open), VArm(i, VVoid), [0, 0, 0, arms[i].tag])
  {
    ArmOnWire(arms, open, i, VVoid, []);
    WordOnWire(arms[i].tag);
    assert Be32(arms[i].tag) + [] == Be32(arms[i].tag);
  }

  // ---- The types of NFS ----

  /** An optional value is there after a one; a zero says that it is not. */
  lemma OptionalOnWire(s: Schema, v: Value, b: seq<Byte>)
    requires OnWire(s, v, b)
    ensures OnWire(Optional(s), VArm(0, v), [0, 0, 0, 1] + b) && OnWire(Optional(s), VArm(1, VVoid), [0, 0, 0, 0])
  {
    var arms := Optional(s).arms;
    ArmOnWire(arms, false, 0, v, b);
    EmptyArmOnWire(arms, false, 1);
    WordOnWire(1);
  }

  /** Regular files are 1 and directories 2. */
  lemma FileTypeOnWire(i: nat)
    requires i < 7
    ensures OnWire(FTYPE3, VArm(i, VVoid), [0, 0, 0, i + 1])
  {
    EmptyArmOnWire(FTYPE3.arms, false, i);
  }

  lemma PairOnWire(m: U32, n: U32)
    ensures OnWire(Struct([Uint, Uint]), VStruct([VUint(m), VUint(n)]), Be32(m) + Be32(n))
  {
    WordOnWire(m);
    WordOnWire(n);
    TwoOnWire(Uint, VUint(m), Be32(m), Uint, VUint(n), Be32(n));
    StructOnWire([Uint, Uint], [VUint(m), VUint(n)], Be32(m) + Be32(n));
  }

  /** Leave a time, set it to the server's, set it to this. */
  lemma SetTimeOnWire(seconds: U32, nseconds: U32)
    ensures OnWire(SATTR_TIME, VArm(0, VVoid), [0, 0, 0, 0]) && OnWire(SATTR_TIME, VArm(1, VVoid), [0, 0, 0, 1])
    ensures OnWire(SATTR_TIME, VArm(2, VStruct([VUint(seconds), VUint(nseconds)])),
                   [0, 0, 0, 2] + (Be32(seconds) + Be32(nseconds)))
  {
    EmptyArmOnWire(SATTR_TIME.arms, false, 0);
    EmptyArmOnWire(SATTR_TIME.arms, false, 1);
    PairOnWire(seconds, nseconds);
    WordOnWire(2);
    ArmOnWire(SATTR_TIME.arms, false, 2, VStruct([VUint(seconds), VUint(nseconds)]), Be32(seconds) + Be32(nseconds));
  }

  /** Character device, block device, socket, pipe. */
  lemma DeviceOnWire(v: Value, b: seq<Byte>)
    ensures OnWire(DEVICEDATA3, v, b) ==>
              && OnWire(MKNODDATA3, VArm(0, v), [0, 0, 0, 4] + b) && OnWire(MKNODDATA3, VArm(1, v), [0, 0, 0, 3] + b)
    ensures OnWire(SATTR3, v, b) ==>
              && OnWire(MKNODDATA3, VArm(2, v), [0, 0, 0, 6] + b) && OnWire(MKNODDATA3, VArm(3, v), [0, 0, 0, 7] + b)
  {
    var arms := MKNODDATA3.arms;
    WordOnWire(3);
    WordOnWire(4);
    WordOnWire(6);
    WordOnWire(7);
    if OnWire(DEVICEDATA3, v, b) {
      ArmOnWire(arms, true, 0, v, b);
      ArmOnWire(arms, true, 1, v, b);
    }
    if OnWire(SATTR3, v, b) {
      ArmOnWire(arms, true, 2, v, b);
      ArmOnWire(arms, true, 3, v, b);
    }
  }

  /** A name is its length, its bytes and zeros. */
  lemma NameOnWire(name: seq<Byte>) returns (zeros: seq<Byte>)
    requires |name| < 0x1_0000_0000
    ensures |zeros| < 4 && (|name| + |zeros|) % 4 == 0 && forall i :: 0 <= i < |zeros| ==> zeros[i] == 0
    ensures OnWire(FILENAME3, VStruct([VBytes(name)]), Be32(|name|) + (name + zeros))
  {
    zeros := OpaqueOnWire(name);
    OneOnWire(OpaqueVar, VBytes(name), Be32(|name|) + (name + zeros));
    StructOnWire([OpaqueVar], [VBytes(name)], Be32(|name|) + (name + zeros));
  }

  /** A READDIR entry: file id, name, cookie. */
  lemma EntryOnWire(id: U64, name: seq<Byte>, b: seq<Byte>)
    requires OnWire(FILENAME3, VStruct([VBytes(name)]), b)
    ensures OnWire(ENTRY3, VStruct([VHyper(id), VStruct([VBytes(name)]), VHyper(id)]), Be64(id) + (b + Be64(id)))
  {
    HyperOnWire(id);
    ThreeOnWire(Hyper, VHyper(id), Be64(id), FILENAME3, VStruct([VBytes(name)]), b, Hyper, VHyper(id), Be64(id));
    StructOnWire([Hyper, FILENAME3, Hyper], [VHyper(id), VStruct([VBytes(name)]), VHyper(id)],
                 Be64(id) + (b + Be64(id)));
  }

  /** A READDIRPLUS entry: the same, then attributes and handle, both there. */
  lemma EntryPlusOnWire(id: U64, name: seq<Byte>, b: seq<Byte>, attributes: Value, x: seq<Byte>,
                        handle: Value, y: seq<Byte>)
    requires OnWire(FILENAME3, VStruct([VBytes(name)]), b)
    requires OnWire(FATTR3, attributes, x) && OnWire(NFS_FH3, handle, y)
    ensures OnWire(ENTRYPLUS3,
                   VStruct([VHyper(id), VStruct([VBytes(name)]), VHyper(id), VArm(0, attributes), VArm(0, handle)]),
                   (Be64(id) + (b + Be64(id))) + (([0, 0, 0, 1] + x) + ([0, 0, 0, 1] + y)))
  {
    HyperOnWire(id);
    ThreeOnWire(Hyper, VHyper(id), Be64(id), FILENAME3, VStruct([VBytes(name)]), b, Hyper, VHyper(id), Be64(id));
    OptionalOnWire(FATTR3, attributes, x);
    OptionalOnWire(NFS_FH3, handle, y);
    var a, h := POST_OP_ATTR, Optional(NFS_FH3);
    TwoOnWire(a, VArm(0, attributes), [0, 0, 0, 1] + x, h, VArm(0, handle), [0, 0, 0, 1] + y);
    FieldsOnWire([Hyper, FILENAME3, Hyper], [VHyper(id), VStruct([VBytes(name)]), VHyper(id)],
                 Be64(id) + (b + Be64(id)),
                 [a, h], [VArm(0, attributes), VArm(0, handle)], ([0, 0, 0, 1] + x) + ([0, 0, 0, 1] + y));
    assert [Hyper, FILENAME3, Hyper] + [a, h] == [Hyper, FILENAME3, Hyper, a, h];
    assert [VHyper(id), VStruct([VBytes(name)]), VHyper(id)] + [VArm(0, attributes), VArm(0, handle)]
        == [VHyper(id), VStruct([VBytes(name)]), VHyper(id), VArm(0, attributes), VArm(0, handle)];
  }

  /** A listing: attributes, cookie verifier, entries, end-of-file flag. */
  lemma ListingOnWire(entry: Schema, attributes: Value, a: seq<Byte>, verf: seq<Byte>, entries: seq<Value>,
                      e: seq<Byte>, eof: bool)
    requires OnWire(POST_OP_ATTR, attributes, a) && |verf| == 8 && OnWire(ListOf(entry), VList(entries), e)
    ensures OnWire(DirListing(entry), ListingValue(attributes, verf, entries, eof),
                   a + (verf + (e + [0, 0, 0, if eof then 1 else 0])))
  {
    var zeros := OpaqueOnWire(verf);
    assert verf + zeros == verf;
    OneOnWire(OpaqueFixed(8), VBytes(verf), verf);
    BooleanOnWire();
    var last: seq<Byte> := [0, 0, 0, if eof then 1 else 0];
    TwoOnWire(ListOf(entry), VList(entries), e, Boolean, VBool(eof), last);
    StructOnWire([ListOf(entry), Boolean], [VList(entries), VBool(eof)], e + last);
    var list, v := Struct([ListOf(entry), Boolean]), VStruct([VList(entries), VBool(eof)]);
    ThreeOnWire(POST_OP_ATTR, attributes, a, COOKIEVERF3, VStruct([VBytes(verf)]), verf, list, v, e + last);
    StructOnWire([POST_OP_ATTR, COOKIEVERF3, list], [attributes, VStruct([VBytes(verf)]), v],
                 a + (verf + (e + last)));
  }

  // ---- RPC messages ----

  /** Flavors 0 to 3: none, UNIX, short, DES. */
  lemma AuthOnWire(i: nat, body: seq<Byte>, b: seq<Byte>)
    requires i < 4 && OnWire(OpaqueVar, VBytes(body), b)
    ensures OnWire(OPAQUE_AUTH, VStruct([VArm(i, VVoid), VBytes(body)]), [0, 0, 0, i] + b)
  {
    var flavor := AUTH_FLAVOR;
    EmptyArmOnWire(flavor.arms, false, i);
    TwoOnWire(flavor, VArm(i, VVoid), [0, 0, 0, i], OpaqueVar, VBytes(body), b);
    StructOnWire([flavor, OpaqueVar], [VArm(i, VVoid), VBytes(body)], [0, 0, 0, i] + b);
  }

  /** A call: xid, 0 for a call, RPC version 2, program, version, procedure, credential, verifier. */
  lemma CallOnWire(xid: U32, prog: U32, vers: U32, procedure: U32, cred: Value, c: seq<Byte>, verf: Value, f: seq<Byte>)
    requires OnWire(OPAQUE_AUTH, cred, c) && OnWire(OPAQUE_AUTH, verf, f)
    ensures OnWire(RPC_MSG, CallMessage(xid, CallBody(prog, vers, procedure, cred, verf)),
                   Be32(xid) + ([0, 0, 0, 0]
                                + (([0, 0, 0, 2] + (Be32(prog) + Be32(vers))) + (Be32(procedure) + (c + f)))))
  {
    var auth, call := OPAQUE_AUTH, CALL_BODY;
    var front, back := [0, 0, 0, 2] + (Be32(prog) + Be32(vers)), Be32(procedure) + (c + f);
    WordOnWire(2);
    WordOnWire(prog);
    WordOnWire(vers);
    WordOnWire(procedure);
    ThreeOnWire(Uint, VUint(2), [0, 0, 0, 2], Uint, VUint(prog), Be32(prog), Uint, VUint(vers), Be32(vers));
    ThreeOnWire(Uint, VUint(procedure), Be32(procedure), auth, cred, c, auth, verf, f);
    FieldsOnWire([Uint, Uint, Uint], [VUint(2), VUint(prog), VUint(vers)], front,
                 [Uint, auth, auth], [VUint(procedure), cred, verf], back);
    assert [Uint, Uint, Uint] + [Uint, auth, auth] == [Uint, Uint, Uint, Uint, auth, auth];
    assert [VUint(2), VUint(prog), VUint(vers)] + [VUint(procedure), cred, verf]
        == [VUint(2), VUint(prog), VUint(vers), VUint(procedure), cred, verf];
    StructOnWire([Uint, Uint, Uint, Uint, auth, auth],
                 [VUint(2), VUint(prog), VUint(vers), VUint(procedure), cred, verf], front + back);
    MessageOnWire(xid, 0, CallBody(prog, vers, procedure, cred, verf), front + back);
  }

  lemma MessageOnWire(xid: U32, i: nat, body: Value, b: seq<Byte>)
    requires i < 2 && OnWire(if i == 0 then CALL_BODY else REPLY_BODY, body, b)
    ensures OnWire(RPC_MSG, VStruct([VUint(xid), VArm(i, body)]), Be32(xid) + ([0, 0, 0, i] + b))
  {
    var kind := MSG_BODY;
    WordOnWire(i);
    WordOnWire(xid);
    ArmOnWire(kind.arms, false, i, body, b);
    TwoOnWire(Uint, VUint(xid), Be32(xid), kind, VArm(i, body), [0, 0, 0, i] + b);
    StructOnWire([Uint, kind], [VUint(xid), VArm(i, body)], Be32(xid) + ([0, 0, 0, i] + b));
  }

  /** An accepted reply: xid, 1 for a reply, 0 for accepted, an empty verifier, and what became of the call. */
  lemma AcceptedOnWire(xid: U32, stat: Value, b: seq<Byte>)
    requires OnWire(ACCEPT_STAT, stat, b)
    ensures OnWire(RPC_MSG, ReplyMessage(xid, AcceptedReply(stat)),
                   Be32(xid) + ([0, 0, 0, 1] + ([0, 0, 0, 0] + ([0, 0, 0, 0, 0, 0, 0, 0] + b))))
  {
    var auth, stats, body, reply := OPAQUE_AUTH, ACCEPT_STAT, ACCEPTED, REPLY_BODY;
    var zeros := OpaqueOnWire([]);
    assert Be32(0) + ([] + zeros) == [0, 0, 0, 0];
    AuthOnWire(0, [], [0, 0, 0, 0]);
    assert [0, 0, 0, 0] + [0, 0, 0, 0] == [0, 0, 0, 0, 0, 0, 0, 0];
    TwoOnWire(auth, NULL_AUTH, [0, 0, 0, 0, 0, 0, 0, 0], stats, stat, b);
    StructOnWire([auth, stats], [NULL_AUTH, stat], [0, 0, 0, 0, 0, 0, 0, 0] + b);
    WordOnWire(0);
    ArmOnWire(reply.arms, false, 0, VStruct([NULL_AUTH, stat]), [0, 0, 0, 0, 0, 0, 0, 0] + b);
    MessageOnWire(xid, 1, AcceptedReply(stat), [0, 0, 0, 0] + ([0, 0, 0, 0, 0, 0, 0, 0] + b));
  }

  /** Success, no such program, no such procedure, garbage, system error; and a range of versions. */
  lemma StatOnWire(low: U32, high: U32)
    ensures OnWire(ACCEPT_STAT, SUCCESS, [0, 0, 0, 0]) && OnWire(ACCEPT_STAT, PROG_UNAVAIL, [0, 0, 0, 1])
    ensures OnWire(ACCEPT_STAT, VArm(2, RangeValue(low, high)), [0, 0, 0, 2] + (Be32(low) + Be32(high)))
    ensures OnWire(ACCEPT_STAT, PROC_UNAVAIL, [0, 0, 0, 3]) && OnWire(ACCEPT_STAT, GARBAGE_ARGS, [0, 0, 0, 4])
    ensures OnWire(ACCEPT_STAT, SYSTEM_ERR, [0, 0, 0, 5])
  {
    var stat := ACCEPT_STAT;
    EmptyArmOnWire(stat.arms, false, 0);
    EmptyArmOnWire(stat.arms, false, 1);
    EmptyArmOnWire(stat.arms, false, 3);
    EmptyArmOnWire(stat.arms, false, 4);
    EmptyArmOnWire(stat.arms, false, 5);
    PairOnWire(low, high);
    WordOnWire(2);
    ArmOnWire(stat.arms, false, 2, RangeValue(low, high), Be32(low) + Be32(high));
  }

  /** A denied reply: xid, 1 for a reply, 1 for denied, then 0 and the RPC versions known, or 1 and what is wrong with
      the credential. */
  lemma DeniedOnWire(xid: U32, i: nat)
    requires i < 8
    ensures OnWire(RPC_MSG, ReplyMessage(xid, RPC_MISMATCH),
                   Be32(xid) + ([0, 0, 0, 1] + ([0, 0, 0, 1] + ([0, 0, 0, 0] + ([0, 0, 0, 2] + [0, 0, 0, 2])))))
    ensures OnWire(RPC_MSG, ReplyMessage(xid, VArm(1, VArm(1, VArm(i, VVoid)))),
                   Be32(xid) + ([0, 0, 0, 1] + ([0, 0, 0, 1] + ([0, 0, 0, 1] + [0, 0, 0, i]))))
  {
    var rejected, reply, stat := REJECTED, REPLY_BODY, AUTH_STAT;
    PairOnWire(2, 2);
    WordOnWire(0);
    WordOnWire(1);
    WordOnWire(2);
    ArmOnWire(rejected.arms, false, 0, RangeValue(2, 2), [0, 0, 0, 2] + [0, 0, 0, 2]);
    ArmOnWire(reply.arms, false, 1, RPC_MISMATCH.body, [0, 0, 0, 0] + ([0, 0, 0, 2] + [0, 0, 0, 2]));
    MessageOnWire(xid, 1, RPC_MISMATCH, [0, 0, 0, 1] + ([0, 0, 0, 0] + ([0, 0, 0, 2] + [0, 0, 0, 2])));
    EmptyArmOnWire(stat.arms, false, i);
    ArmOnWire(rejected.arms, false, 1, VArm(i, VVoid), [0, 0, 0, i]);
    ArmOnWire(reply.arms, false, 1, VArm(1, VArm(i, VVoid)), [0, 0, 0, 1] + [0, 0, 0, i]);
    MessageOnWire(xid, 1, VArm(1, VArm(1, VArm(i, VVoid))), [0, 0, 0, 1] + ([0, 0, 0, 1] + [0, 0, 0, i]));
  }

  /** A UNIX identity: stamp, machine name, user, group, the count of further groups and these. */
  lemma UnixOnWire(stamp: U32, machine: seq<Byte>, m: seq<Byte>, uid: U32, gid: U32, gids: seq<U32>, words: seq<Byte>)
    requires OnWire(OpaqueVar, VBytes(machine), m) && OnWire(UintVec, VUints(gids), words)
    ensures OnWire(AUTH_UNIX, VStruct([VUint(stamp), VBytes(machine), VUint(uid), VUint(gid), VUints(gids)]),
                   (Be32(stamp) + m) + (Be32(uid) + (Be32(gid) + words)))
  {
    WordOnWire(stamp);
    WordOnWire(uid);
    WordOnWire(gid);
    TwoOnWire(Uint, VUint(stamp), Be32(stamp), OpaqueVar, VBytes(machine), m);
    ThreeOnWire(Uint, VUint(uid), Be32(uid), Uint, VUint(gid), Be32(gid), UintVec, VUints(gids), words);
    FieldsOnWire([Uint, OpaqueVar], [VUint(stamp), VBytes(machine)], Be32(stamp) + m,
                 [Uint, Uint, UintVec], [VUint(uid), VUint(gid), VUints(gids)], Be32(uid) + (Be32(gid) + words));
    assert [Uint, OpaqueVar] + [Uint, Uint, UintVec] == [Uint, OpaqueVar, Uint, Uint, UintVec];
    assert [VUint(stamp), VBytes(machine)] + [VUint(uid), VUint(gid), VUints(gids)]
        == [VUint(stamp), VBytes(machine), VUint(uid), VUint(gid), VUints(gids)];
  }

  /** A fragment's length with the top bit set on the last one. */
  lemma FragmentOnWire(bytes: seq<Byte>)
    requires |bytes| <= 0x7FFF_FFFF
    ensures Records.Fragment(bytes, false) == Be32(|bytes|) + bytes
    ensures Records.Fragment(bytes, true) == Be32(|bytes| + 0x8000_0000) + bytes
  {}

  // ---- File attributes ----

  /** Owner and group after the three words that depend on the kind of file alone. */
  lemma WordsOfFile(dir: bool, uid: U32, gid: U32)
    ensures AllOnWire(FATTR_WORDS,
                      [VArm(if dir then 1 else 0, VVoid), VUint(if dir then 511 else 493), VUint(1), VUint(uid),
                       VUint(gid)],
                      ((if dir then [0, 0, 0, 2] else [0, 0, 0, 1])
                       + ((if dir then [0, 0, 1, 255] else [0, 0, 1, 237]) + [0, 0, 0, 1])) + (Be32(uid) + Be32(gid)))
  {
    var kind, mode := VArm(if dir then 1 else 0, VVoid), VUint(if dir then 511 else 493);
    var k: seq<Byte> := if dir then [0, 0, 0, 2] else [0, 0, 0, 1];
    var m: seq<Byte> := if dir then [0, 0, 1, 255] else [0, 0, 1, 237];
    FileTypeOnWire(if dir then 1 else 0);
    WordOnWire(if dir then 511 else 493);
    WordOnWire(1);
    WordOnWire(uid);
    WordOnWire(gid);
    var ftype := FTYPE3;
    ThreeOnWire(ftype, kind, k, Uint, mode, m, Uint, VUint(1), [0, 0, 0, 1]);
    TwoOnWire(Uint, VUint(uid), Be32(uid), Uint, VUint(gid), Be32(gid));
    FieldsOnWire([ftype, Uint, Uint], [kind, mode, VUint(1)], k + (m + [0, 0, 0, 1]),
                 [Uint, Uint], [VUint(uid), VUint(gid)], Be32(uid) + Be32(gid));
    assert [ftype, Uint, Uint] + [Uint, Uint] == FATTR_WORDS;
    assert [kind, mode, VUint(1)] + [VUint(uid), VUint(gid)] == [kind, mode, VUint(1), VUint(uid), VUint(gid)];
  }

  /** Size, space used, no device, file system 0, file id. */
  lemma IdsOfFile(size: U64, used: U64, fileid: U64)
    ensures AllOnWire(FATTR_IDS, [VHyper(size), VHyper(used), VStruct([VUint(0), VUint(0)]), VHyper(0), VHyper(fileid)],
                      (Be64(size) + (Be64(used) + [0, 0, 0, 0, 0, 0, 0, 0]))
                      + ([0, 0, 0, 0, 0, 0, 0, 0] + Be64(fileid)))
  {
    HyperOnWire(size);
    HyperOnWire(used);
    HyperOnWire(0);
    HyperOnWire(fileid);
    PairOnWire(0, 0);
    var zeros: seq<Byte> := [0, 0, 0, 0, 0, 0, 0, 0];
    assert Be32(0) + Be32(0) == zeros;
    var none, spec := VStruct([VUint(0), VUint(0)]), SPECDATA3;
    ThreeOnWire(Hyper, VHyper(size), Be64(size), Hyper, VHyper(used), Be64(used), spec, none, zeros);
    TwoOnWire(Hyper, VHyper(0), zeros, Hyper, VHyper(fileid), Be64(fileid));
    FieldsOnWire([Hyper, Hyper, spec], [VHyper(size), VHyper(used), none], Be64(size) + (Be64(used) + zeros),
                 [Hyper, Hyper], [VHyper(0), VHyper(fileid)], zeros + Be64(fileid));
    assert [Hyper, Hyper, spec] + [Hyper, Hyper] == FATTR_IDS;
    assert [VHyper(size), VHyper(used), none] + [VHyper(0), VHyper(fileid)]
        == [VHyper(size), VHyper(used), none, VHyper(0), VHyper(fileid)];
  }

  lemma TimesOfFile(a: Time, m: Time, c: Time)
    ensures AllOnWire(FATTR_TIMES, [Readdir.TimeValue(a), Readdir.TimeValue(m), Readdir.TimeValue(c)],
                      (Be32(a.seconds) + Be32(a.nseconds))
                      + ((Be32(m.seconds) + Be32(m.nseconds)) + (Be32(c.seconds) + Be32(c.nseconds))))
  {
    PairOnWire(a.seconds, a.nseconds);
    PairOnWire(m.seconds, m.nseconds);
    PairOnWire(c.seconds, c.nseconds);
    var time := NFSTIME3;
    ThreeOnWire(time, Readdir.TimeValue(a), Be32(a.seconds) + Be32(a.nseconds),
                time, Readdir.TimeValue(m), Be32(m.seconds) + Be32(m.nseconds),
                time, Readdir.TimeValue(c), Be32(c.seconds) + Be32(c.nseconds));
  }

  function KindBytes(e: Entry): seq<Byte> {
    (if e.Dir? then [0, 0, 0, 2] else [0, 0, 0, 1])
    + ((if e.Dir? then [0, 0, 1, 255] else [0, 0, 1, 237]) + [0, 0, 0, 1])
  }

  function SizeBytes(a: Attr): seq<Byte>
    requires a.size < U64_LIMIT && a.used < U64_LIMIT && a.fileid < U64_LIMIT
  {
    (Be64(a.size) + (Be64(a.used) + [0, 0, 0, 0, 0, 0, 0, 0])) + ([0, 0, 0, 0, 0, 0, 0, 0] + Be64(a.fileid))
  }

  function TimeBytes(a: Attr): seq<Byte> {
    (Be32(a.atime.seconds) + Be32(a.atime.nseconds))
    + ((Be32(a.mtime.seconds) + Be32(a.mtime.nseconds)) + (Be32(a.ctime.seconds) + Be32(a.ctime.nseconds)))
  }

  /** The 84 bytes of an entry's attributes: kind, mode and link count, owner and group, sizes and ids, times. */
  lemma AttributesOnWire(e: Entry)
    requires e.attr.size < U64_LIMIT && e.attr.used < U64_LIMIT && e.attr.fileid < U64_LIMIT
    ensures OnWire(FATTR3, Readdir.AttributesValue(e),
                   (KindBytes(e) + (Be32(e.attr.uid) + Be32(e.attr.gid))) + (SizeBytes(e.attr) + TimeBytes(e.attr)))
  {
    var a := e.attr;
    var words := [VArm(if e.Dir? then 1 else 0, VVoid), VUint(if e.Dir? then 511 else 493), VUint(1), VUint(a.uid),
                  VUint(a.gid)];
    var ids := [VHyper(a.size), VHyper(a.used), VStruct([VUint(0), VUint(0)]), VHyper(0), VHyper(a.fileid)];
    var times := [Readdir.TimeValue(a.atime), Readdir.TimeValue(a.mtime), Readdir.TimeValue(a.ctime)];
    WordsOfFile(e.Dir?, a.uid, a.gid);
    IdsOfFile(a.size, a.used, a.fileid);
    TimesOfFile(a.atime, a.mtime, a.ctime);
    AttributeParts(e);
    RunsOnWire(FATTR_WORDS, words, KindBytes(e) + (Be32(a.uid) + Be32(a.gid)),
               FATTR_IDS, ids, SizeBytes(a), FATTR_TIMES, times, TimeBytes(a));
  }

  lemma AttributeParts(e: Entry)
    requires e.attr.size < U64_LIMIT && e.attr.used < U64_LIMIT && e.attr.fileid < U64_LIMIT
    ensures Readdir.AttributesValue(e)
         == VStruct([VArm(if e.Dir? then 1 else 0, VVoid), VUint(if e.Dir? then 511 else 493), VUint(1),
                     VUint(e.attr.uid), VUint(e.attr.gid)] +
                    ([VHyper(e.attr.size), VHyper(e.attr.used), VStruct([VUint(0), VUint(0)]), VHyper(0),
                      VHyper(e.attr.fileid)] +
                     [Readdir.TimeValue(e.attr.atime), Readdir.TimeValue(e.attr.mtime),
                      Readdir.TimeValue(e.attr.ctime)]))
  {
    assert e.attr.size % U64_LIMIT == e.attr.size && e.attr.used % U64_LIMIT == e.attr.used;
    assert e.attr.fileid % U64_LIMIT == e.attr.fileid;
  }

  lemma RunsOnWire(a: seq<Schema>, v: seq<Value>, x: seq<Byte>, b: seq<Schema>, w: seq<Value>, y: seq<Byte>,
                   c: seq<Schema>, q: seq<Value>, z: seq<Byte>)
    requires AllOnWire(a, v, x) && AllOnWire(b, w, y) && AllOnWire(c, q, z)
    ensures OnWire(Struct(a + (b + c)), VStruct(v + (w + q)), x + (y + z))
  {
    FieldsOnWire(b, w, y, c, q, z);
    FieldsOnWire(a, v, x, b + c, w + q, y + z);
    StructOnWire(a + (b + c), v + (w + q), x + (y + z));
  }

  // ---- Results ----

  /** A success is announced by 0. */
  lemma SuccessOnWire(ok: Schema, err: Schema, v: Value, b: seq<Byte>)
    requires OnWire(ok, v, b)
    ensures PackReply(ok, err, Succeeded(v)) == Ok([0, 0, 0, 0] + b)
  {
    WordOnWire(0);
  }

  /** A failure is announced by its code. */
  lemma FailureOnWire(ok: Schema, err: Schema, code: U32, v: Value, b: seq<Byte>)
    requires ReplyHasType(ok, err, Failed(code, v)) && OnWire(err, v, b)
    ensures PackReply(ok, err, Failed(code, v)) == Ok(Be32(code) + b)
  {
    assert Pack(err, v).value == b;
  }

  /** The codes are those of RFC 1813 section 2.6; no other is taken for a status. */
  lemma StatusCodesIff(ok: Schema, err: Schema, code: U32, rest: seq<Byte>)
    ensures code in STATUS_CODES
       <==> code in {0, 1, 2, 5, 6, 13, 17, 18, 19, 20, 21, 22, 27, 28, 30, 31, 63, 66, 69, 70, 71,
                     10001, 10002, 10003, 10004, 10005, 10006, 10007, 10008}
    ensures code !in STATUS_CODES ==> UnpackReply(ok, err, Be32(code) + rest) == Bad(InvalidEnumValue(code))
  {
    Be32RoundTrip(code);
    assert (Be32(code) + rest)[..4] == Be32(code);
  }
}
