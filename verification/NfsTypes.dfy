/** The wire types of NFS version 3 (RFC 1813) that the other modules use, as schemas, and the two
    codecs of that protocol that are written by hand. */
module NfsTypes {
  import opened Basics
  import opened Xdr
  import opened XdrLaws

  const NFSTIME3: Schema := Struct([Uint, Uint])
  const SPECDATA3: Schema := Struct([Uint, Uint])
  const FTYPE3: Schema :=
    Union([Arm(1, Void), Arm(2, Void), Arm(3, Void), Arm(4, Void), Arm(5, Void), Arm(6, Void), Arm(7, Void)], false)
  /** Type, mode, link count, owner and group; sizes, device, file system and file id; three times. */
  const FATTR3: Schema := Struct(FATTR_WORDS + (FATTR_IDS + FATTR_TIMES))
  const FATTR_WORDS: seq<Schema> := [FTYPE3, Uint, Uint, Uint, Uint]
  const FATTR_IDS: seq<Schema> := [Hyper, Hyper, SPECDATA3, Hyper, Hyper]
  const FATTR_TIMES: seq<Schema> := [NFSTIME3, NFSTIME3, NFSTIME3]
  const FILENAME3: Schema := Struct([OpaqueVar])
  const NFS_FH3: Schema := Struct([OpaqueVar])
  const POST_OP_ATTR: Schema := Optional(FATTR3)
  const COOKIEVERF3: Schema := Struct([OpaqueFixed(8)])
  const ENTRY3: Schema := Struct([Hyper, FILENAME3, Hyper])
  const ENTRYPLUS3: Schema := Struct([Hyper, FILENAME3, Hyper, POST_OP_ATTR, Optional(NFS_FH3)])
  const READDIR3RESOK: Schema := DirListing(ENTRY3)
  const READDIRPLUS3RESOK: Schema := DirListing(ENTRYPLUS3)

  /** `Nfs3Option<T>`: the variant with data comes first and has tag 1. */
  function Optional(s: Schema): Schema {
    Union([Arm(1, s), Arm(0, Void)], false)
  }

  /** A successful READDIR or READDIRPLUS: attributes, cookie verifier, and the list with its eof flag. */
  function DirListing(entry: Schema): Schema {
    Struct([POST_OP_ATTR, COOKIEVERF3, Struct([ListOf(entry), Boolean])])
  }

  function ListingValue(attributes: Value, verf: seq<Byte>, entries: seq<Value>, eof: bool): Value {
    VStruct([attributes, VStruct([VBytes(verf)]), VStruct([VList(entries), VBool(eof)])])
  }

  predicate AllOfType(s: Schema, vs: seq<Value>) {
    forall i :: 0 <= i < |vs| ==> HasType(s, vs[i])
  }

  lemma ListingTyped(entry: Schema, attributes: Value, verf: seq<Byte>, entries: seq<Value>, eof: bool)
    requires HasType(POST_OP_ATTR, attributes) && |verf| == 8 && AllOfType(entry, entries)
    ensures HasType(DirListing(entry), ListingValue(attributes, verf, entries, eof))
  {
    assert HasType(COOKIEVERF3, VStruct([VBytes(verf)]));
    assert HasType(Struct([ListOf(entry), Boolean]), VStruct([VList(entries), VBool(eof)]));
  }

  lemma ListingSize(entry: Schema, attributes: Value, verf: seq<Byte>, entries: seq<Value>, eof: bool)
    requires HasType(POST_OP_ATTR, attributes) && |verf| == 8 && AllOfType(entry, entries)
    requires HasType(DirListing(entry), ListingValue(attributes, verf, entries, eof))
    ensures PackedSize(DirListing(entry), ListingValue(attributes, verf, entries, eof))
         == PackedSize(POST_OP_ATTR, attributes) + 8 + ItemsSize(entry, entries) + 4
  {
    var list := VStruct([VList(entries), VBool(eof)]);
    OneField(OpaqueFixed(8), VBytes(verf));
    TwoFields(ListOf(entry), VList(entries), Boolean, VBool(eof));
    ThreeFields(POST_OP_ATTR, attributes, COOKIEVERF3, VStruct([VBytes(verf)]), Struct([ListOf(entry), Boolean]), list);
  }

  lemma OneField(s: Schema, v: Value)
    requires HasType(s, v) && HasType(Struct([s]), VStruct([v]))
    ensures PackedSize(Struct([s]), VStruct([v])) == PackedSize(s, v)
  {
    assert FieldsSize([s][1..], [v][1..]) == 0;
  }

  lemma TwoFields(s1: Schema, v1: Value, s2: Schema, v2: Value)
    requires HasType(s1, v1) && HasType(s2, v2) && HasType(Struct([s1, s2]), VStruct([v1, v2]))
    ensures PackedSize(Struct([s1, s2]), VStruct([v1, v2])) == PackedSize(s1, v1) + PackedSize(s2, v2)
  {
    assert [s1, s2][1..] == [s2] && [v1, v2][1..] == [v2];
    OneField(s2, v2);
  }

  lemma ThreeFields(s1: Schema, v1: Value, s2: Schema, v2: Value, s3: Schema, v3: Value)
    requires HasType(s1, v1) && HasType(s2, v2) && HasType(s3, v3)
    requires HasType(Struct([s1, s2, s3]), VStruct([v1, v2, v3]))
    ensures PackedSize(Struct([s1, s2, s3]), VStruct([v1, v2, v3]))
         == PackedSize(s1, v1) + PackedSize(s2, v2) + PackedSize(s3, v3)
  {
    assert [s1, s2, s3][1..] == [s2, s3] && [v1, v2, v3][1..] == [v2, v3];
    TwoFields(s2, v2, s3, v3);
  }

  lemma OneMoreField(s: Schema, v: Value, fields: seq<Schema>, parts: seq<Value>)
    requires HasType(s, v) && HasType(Struct(fields), VStruct(parts))
    ensures HasType(Struct([s] + fields), VStruct([v] + parts))
    ensures PackedSize(Struct([s] + fields), VStruct([v] + parts))
         == PackedSize(s, v) + PackedSize(Struct(fields), VStruct(parts))
  {
    var all, values := [s] + fields, [v] + parts;
    assert all[1..] == fields && values[1..] == parts;
    forall i | 0 <= i < |all| ensures HasType(all[i], values[i]) {
      if i > 0 { assert all[i] == fields[i - 1] && values[i] == parts[i - 1]; }
    }
  }

  // ---- Types of one size ----

  predicate IsFixed(s: Schema) {
    match s
    case Void => true
    case Uint => true
    case Hyper => true
    case Boolean => true
    case OpaqueFixed(_) => true
    case Struct(fields) => forall i :: 0 <= i < |fields| ==> IsFixed(fields[i])
    case Union(arms, open) => !open && forall i :: 0 <= i < |arms| ==> arms[i].body == Void
    case _ => false
  }

  function FixedSize(s: Schema): nat
    requires IsFixed(s)
    decreases s, 1
  {
    match s
    case Void => 0
    case Uint => 4
    case Hyper => 8
    case Boolean => 4
    case OpaqueFixed(len) => AddPadding(len)
    case Struct(fields) => FixedFields(fields)
    case Union(_, _) => 4
  }

  function FixedFields(fields: seq<Schema>): nat
    requires forall i :: 0 <= i < |fields| ==> IsFixed(fields[i])
    decreases fields, 0
  {
    if fields == [] then 0 else FixedSize(fields[0]) + FixedFields(fields[1..])
  }

  lemma {:induction false} FixedSizeHolds(s: Schema, v: Value)
    requires IsFixed(s) && HasType(s, v)
    ensures PackedSize(s, v) == FixedSize(s)
    decreases s, 1
  {
    if s.Struct? { FixedFieldsHolds(s.fields, v.parts); }
  }

  lemma {:induction false} FixedFieldsHolds(fields: seq<Schema>, parts: seq<Value>)
    requires |parts| == |fields|
    requires forall i :: 0 <= i < |fields| ==> IsFixed(fields[i]) && HasType(fields[i], parts[i])
    ensures FieldsSize(fields, parts) == FixedFields(fields)
    decreases fields, 0
  {
    if fields != [] {
      FixedSizeHolds(fields[0], parts[0]);
      FixedFieldsHolds(fields[1..], parts[1..]);
    }
  }

  predicate AllFixed(fields: seq<Schema>) {
    forall i :: 0 <= i < |fields| ==> IsFixed(fields[i])
  }

  lemma {:induction false} FixedAppend(a: seq<Schema>, b: seq<Schema>)
    requires AllFixed(a) && AllFixed(b)
    ensures AllFixed(a + b) && FixedFields(a + b) == FixedFields(a) + FixedFields(b)
  {
    if a == [] {
      assert a + b == b;
    } else {
      assert (a + b)[1..] == a[1..] + b;
      FixedAppend(a[1..], b);
    }
  }

  lemma {:induction false} FixedTwo(a: Schema, b: Schema)
    requires IsFixed(a) && IsFixed(b)
    ensures AllFixed([a, b]) && FixedFields([a, b]) == FixedSize(a) + FixedSize(b)
  {
    assert [a, b][1..] == [b] && [b][1..] == [];
    assert FixedFields([b]) == FixedSize(b);
  }

  lemma {:induction false} FixedThree(a: Schema, b: Schema, c: Schema)
    requires IsFixed(a) && IsFixed(b) && IsFixed(c)
    ensures AllFixed([a, b, c]) && FixedFields([a, b, c]) == FixedSize(a) + FixedSize(b) + FixedSize(c)
  {
    assert [a, b, c][1..] == [b, c];
    FixedTwo(b, c);
  }

  lemma FixedFive(a: Schema, b: Schema, c: Schema, d: Schema, e: Schema)
    requires IsFixed(a) && IsFixed(b) && IsFixed(c) && IsFixed(d) && IsFixed(e)
    ensures AllFixed([a, b, c, d, e])
    ensures FixedFields([a, b, c, d, e]) == FixedSize(a) + FixedSize(b) + FixedSize(c) + FixedSize(d) + FixedSize(e)
  {
    FixedTwo(a, b);
    FixedThree(c, d, e);
    FixedAppend([a, b], [c, d, e]);
    assert [a, b] + [c, d, e] == [a, b, c, d, e];
  }

  /** File attributes take 84 bytes. */
  lemma AttributesAre84Bytes()
    ensures IsFixed(FATTR3) && FixedSize(FATTR3) == 84
  {
    FixedTwo(Uint, Uint);
    FixedFive(FTYPE3, Uint, Uint, Uint, Uint);
    FixedFive(Hyper, Hyper, SPECDATA3, Hyper, Hyper);
    FixedThree(NFSTIME3, NFSTIME3, NFSTIME3);
    FixedAppend(FATTR_IDS, FATTR_TIMES);
    FixedAppend(FATTR_WORDS, FATTR_IDS + FATTR_TIMES);
  }

  lemma OptionalAttributesSize(v: Value)
    requires HasType(POST_OP_ATTR, v)
    ensures PackedSize(POST_OP_ATTR, v) == if v.index == 0 then 88 else 4
  {
    AttributesAre84Bytes();
    if v.index == 0 { FixedSizeHolds(FATTR3, v.body); }
  }

  // ---- Results ----

  /** The status codes of RFC 1813 section 2.6 in the order of the enum. */
  const STATUS_CODES: seq<U32> :=
    [0, 1, 2, 5, 6, 13, 17, 18, 19, 20, 21, 22, 27, 28, 30, 31, 63, 66, 69, 70, 71,
     10001, 10002, 10003, 10004, 10005, 10006, 10007, 10008]

  /** A reply body: the value on success, a status and what goes with it otherwise. */
  datatype Reply = Succeeded(value: Value) | Failed(code: U32, value: Value)

  predicate ReplyHasType(ok: Schema, err: Schema, r: Reply) {
    match r
    case Succeeded(v) => HasType(ok, v)
    case Failed(code, v) => code in STATUS_CODES && HasType(err, v)
  }

  function PackReply(ok: Schema, err: Schema, r: Reply): Result<seq<Byte>, Error>
    requires ReplyHasType(ok, err, r)
  {
    match r
    case Succeeded(v) =>
      var b :- Pack(ok, v);
      Ok(Be32(0) + b)
    case Failed(code, v) =>
      var b :- Pack(err, v);
      Ok(Be32(code) + b)
  }

  function UnpackReply(ok: Schema, err: Schema, b: seq<Byte>): Decoded<Reply> {
    UnpackReplyOf(STATUS_CODES, ok, err, b)
  }

  function UnpackReplyOf(codes: seq<U32>, ok: Schema, err: Schema, b: seq<Byte>): Decoded<Reply> {
    var (code, b1) :- UnpackUint(b);
    if code !in codes then Bad(InvalidEnumValue(code))
    else if code == 0 then
      var (v, rest) :- Unpack(ok, b1);
      Good(Succeeded(v), rest)
    else
      var (v, rest) :- Unpack(err, b1);
      Good(Failed(code, v), rest)
  }

  /** A result comes back exactly when it is not a failure that carries the code of success. */
  lemma ReplyRoundTripIff(ok: Schema, err: Schema, r: Reply, rest: seq<Byte>)
    requires ReplyHasType(ok, err, r) && DistinctTags(ok) && DistinctTags(err) && PackReply(ok, err, r).Ok?
    ensures UnpackReply(ok, err, PackReply(ok, err, r).value + rest) == Good(r, rest)
       <==> !(r.Failed? && r.code == 0)
  {
    var code := if r.Failed? then r.code else 0;
    var body := Pack(if r.Failed? then err else ok, r.value).value;
    TaggedRoundTrip(code, body, rest);
    RoundTrip(if r.Failed? then err else ok, r.value, rest);
  }

  function IndexIn(codes: seq<U32>, code: U32): (i: nat)
    requires code in codes
    ensures i < |codes| && codes[i] == code && forall j :: 0 <= j < i ==> codes[j] != code
  {
    if codes[0] == code then 0 else 1 + IndexIn(codes[1..], code)
  }

  /** The same result as an enum with a variant for each status. */
  function ReplySchema(ok: Schema, err: Schema): Schema {
    Union(ReplyArms(STATUS_CODES, ok, err), false)
  }

  function ReplyArms(codes: seq<U32>, ok: Schema, err: Schema): (arms: seq<Arm>)
    ensures |arms| == |codes|
    ensures forall i :: 0 <= i < |codes| ==> arms[i] == Arm(codes[i], if i == 0 then ok else err)
  {
    seq(|codes|, i requires 0 <= i < |codes| => Arm(codes[i], if i == 0 then ok else err))
  }

  function ReplyValue(codes: seq<U32>, r: Reply): Value
    requires r.Failed? ==> r.code in codes
  {
    match r
    case Succeeded(v) => VArm(0, v)
    case Failed(code, v) => VArm(IndexIn(codes, code), v)
  }

  lemma CodeFindsArm(codes: seq<U32>, ok: Schema, err: Schema, code: U32)
    ensures FindArm(ReplyArms(codes, ok, err), code) == if code in codes then Some(IndexIn(codes, code)) else None
  {
    var arms := ReplyArms(codes, ok, err);
    if code in codes { assert arms[IndexIn(codes, code)].tag == code; }
  }

  /** A result that is not a failure with the code of success packs as that enum does. */
  lemma ReplyPacksAsUnion(ok: Schema, err: Schema, r: Reply)
    requires ReplyHasType(ok, err, r) && !(r.Failed? && r.code == 0)
    ensures HasType(ReplySchema(ok, err), ReplyValue(STATUS_CODES, r))
    ensures PackReply(ok, err, r) == Pack(ReplySchema(ok, err), ReplyValue(STATUS_CODES, r))
  {
    ArmPacks(STATUS_CODES, ok, err, if r.Failed? then IndexIn(STATUS_CODES, r.code) else 0, r.value);
  }

  lemma ArmPacks(codes: seq<U32>, ok: Schema, err: Schema, i: nat, v: Value)
    requires i < |codes| && HasType(if i == 0 then ok else err, v)
    ensures HasType(Union(ReplyArms(codes, ok, err), false), VArm(i, v))
    ensures var body := Pack(if i == 0 then ok else err, v);
            Pack(Union(ReplyArms(codes, ok, err), false), VArm(i, v))
            == if body.Ok? then Ok(Be32(codes[i]) + body.value) else Err(body.error)
  {
    assert ReplyArms(codes, ok, err)[i] == Arm(codes[i], if i == 0 then ok else err);
  }

  /** Every result is decoded as that enum is. */
  lemma ReplyUnpacksAsUnion(ok: Schema, err: Schema, b: seq<Byte>)
    ensures DecodedAs(STATUS_CODES, UnpackReply(ok, err, b), Unpack(ReplySchema(ok, err), b))
  {
    UnpacksAsUnion(STATUS_CODES, ok, err, b);
  }

  /** The result and the value of the enum are the same, or the errors are. */
  predicate DecodedAs(codes: seq<U32>, reply: Decoded<Reply>, value: Decoded<Value>) {
    match reply
    case Good(r, rest) => (r.Failed? ==> r.code in codes && r.code != 0) && value == Good(ReplyValue(codes, r), rest)
    case Bad(e) => value == Bad(e)
  }

  lemma UnpacksAsUnion(codes: seq<U32>, ok: Schema, err: Schema, b: seq<Byte>)
    requires codes != [] && codes[0] == 0
    ensures DecodedAs(codes, UnpackReplyOf(codes, ok, err, b), Unpack(Union(ReplyArms(codes, ok, err), false), b))
  {
    if UnpackUint(b).Good? { ArmUnpacks(codes, ok, err, b); }
  }

  lemma ArmUnpacks(codes: seq<U32>, ok: Schema, err: Schema, b: seq<Byte>)
    requires UnpackUint(b).Good? && codes != [] && codes[0] == 0
    ensures var Good(code, b1) := UnpackUint(b);
            var u := Unpack(Union(ReplyArms(codes, ok, err), false), b);
            if code !in codes then u == Bad(InvalidEnumValue(code))
            else
              && (IndexIn(codes, code) == 0 <==> code == 0)
              && var body := Unpack(if code == 0 then ok else err, b1);
                 u == if body.Good? then Good(VArm(IndexIn(codes, code), body.value), body.rest) else Bad(body.error)
  {
    var code := UnpackUint(b).value;
    CodeFindsArm(codes, ok, err, code);
    if code in codes {
      assert ReplyArms(codes, ok, err)[IndexIn(codes, code)] == Arm(code, if code == 0 then ok else err);
    }
  }

  lemma ReplyDistinct(ok: Schema, err: Schema)
    requires DistinctTags(ok) && DistinctTags(err)
    ensures DistinctTags(ReplySchema(ok, err))
  {
    StatusCodesIncrease();
  }

  lemma StatusCodesIncrease()
    ensures forall i, j :: 0 <= i < j < |STATUS_CODES| ==> STATUS_CODES[i] < STATUS_CODES[j]
  {}

  // ---- Device data, whose decoder turns unknown tags into a default value ----

  const SATTR_TIME: Schema := Union([Arm(0, Void), Arm(1, Void), Arm(2, NFSTIME3)], false)
  const SATTR3: Schema :=
    Struct([Optional(Uint), Optional(Uint), Optional(Uint), Optional(Hyper), SATTR_TIME, SATTR_TIME])
  const DEVICEDATA3: Schema := Struct([SATTR3, SPECDATA3])
  const MKNODDATA3: Schema := Union([Arm(4, DEVICEDATA3), Arm(3, DEVICEDATA3), Arm(6, SATTR3), Arm(7, SATTR3)], true)

  /** Every value but the default one packs and comes back; the default one does not pack. */
  lemma MknodRoundTripIff(v: Value, rest: seq<Byte>)
    requires HasType(MKNODDATA3, v)
    ensures Pack(MKNODDATA3, v).Ok? <==> v != VDefault
    ensures v != VDefault ==> Unpack(MKNODDATA3, Pack(MKNODDATA3, v).value + rest) == Good(v, rest)
  {
    PacksIff(MKNODDATA3, v);
    if v != VDefault {
      MknodIsPackable(v);
      DeviceDataDistinct();
      RoundTrip(MKNODDATA3, v, rest);
    }
  }

  /** It holds no lengths and no other default variants. */
  lemma MknodIsPackable(v: Value)
    requires HasType(MKNODDATA3, v) && v != VDefault
    ensures Packable(MKNODDATA3, v)
  {
    if v.index < 2 { SattrIsPackable(v.body.parts[0]); } else { SattrIsPackable(v.body); }
    if v.index < 2 { assert Packable(SPECDATA3, v.body.parts[1]) && Packable(DEVICEDATA3, v.body); }
  }

  lemma SattrIsPackable(v: Value)
    requires HasType(SATTR3, v)
    ensures Packable(SATTR3, v)
  {
    forall i | 0 <= i < 6 ensures Packable(SATTR3.fields[i], v.parts[i]) {}
  }

  // ---- No type here has two variants of one tag ----

  lemma OptionalDistinct(s: Schema)
    requires DistinctTags(s)
    ensures DistinctTags(Optional(s))
  {}

  lemma SmallTypesDistinct()
    ensures DistinctTags(FTYPE3) && DistinctTags(NFSTIME3) && DistinctTags(SPECDATA3)
    ensures DistinctTags(FILENAME3) && DistinctTags(NFS_FH3) && DistinctTags(COOKIEVERF3)
  {}

  predicate AllDistinct(fields: seq<Schema>) {
    forall i :: 0 <= i < |fields| ==> DistinctTags(fields[i])
  }

  lemma AttributesDistinct()
    ensures DistinctTags(POST_OP_ATTR)
  {
    SmallTypesDistinct();
    assert AllDistinct(FATTR_WORDS) && AllDistinct(FATTR_IDS) && AllDistinct(FATTR_TIMES);
    OptionalDistinct(FATTR3);
  }

  lemma ListingDistinct(entry: Schema)
    requires DistinctTags(entry)
    ensures DistinctTags(DirListing(entry))
  {
    SmallTypesDistinct();
    AttributesDistinct();
    var attributes, verf := POST_OP_ATTR, COOKIEVERF3;
    assert DistinctTags(Struct([ListOf(entry), Boolean]));
    assert AllDistinct([attributes, verf, Struct([ListOf(entry), Boolean])]);
  }

  lemma DirectoryTypesDistinct()
    ensures DistinctTags(READDIR3RESOK) && DistinctTags(READDIRPLUS3RESOK)
  {
    SmallTypesDistinct();
    AttributesDistinct();
    OptionalDistinct(NFS_FH3);
    var name, attributes, handle := FILENAME3, POST_OP_ATTR, Optional(NFS_FH3);
    assert AllDistinct([Hyper, name, Hyper]) && AllDistinct([Hyper, name, Hyper, attributes, handle]);
    ListingDistinct(ENTRY3);
    ListingDistinct(ENTRYPLUS3);
  }

  lemma DeviceDataDistinct()
    ensures DistinctTags(MKNODDATA3)
  {
    SmallTypesDistinct();
    OptionalDistinct(Uint);
    OptionalDistinct(Hyper);
    var uint, hyper, time := Optional(Uint), Optional(Hyper), SATTR_TIME;
    assert DistinctTags(time);
    assert AllDistinct([uint, uint, uint, hyper, time, time]);
    var attributes, device := SATTR3, DEVICEDATA3;
    assert DistinctTags(attributes);
    assert DistinctTags(device);
  }
}
